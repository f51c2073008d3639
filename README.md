# Blog backend content rules, in Dafny

This project models the content rules of a small blogging system built on
Express and Mongoose, together with two helpers of its browser front end.

- **Slugs.** A post's slug derives from its title by one normaliser. A
  category's slug derives from its name by a second, different one: "don't"
  is `don-t` as a post slug and `dont` as a category slug.
- **Post slug collisions.** A post whose slug is taken gets the first free
  `base-k`. There is no such rule for categories: their unique indexes reject
  the write.
- **Schemas** for posts, categories and comments: field bounds, trim setters,
  defaults, enums and unique indexes. Each pre-save hook is a function or
  method that changes the document.
- **Route handlers** for posts and comments, as methods of a `PostStore` and
  a `CommentStore` class.
  - Each store holds its collection as a map from id to document.
  - Each method states the first error the route answers with, in the
    route's order of checks, and every field of the new state.
  - Each store's invariant (`Valid`) holds the schema rules and the unique
    indexes. Every method that changes the store preserves it.
- **Front end:** `truncateText`, the pagination bar of
  `PostsManager.renderPagination`, and the page reset on search and on
  category filter.

The acting user is a value: `Anonymous` or `User(id, role)`. The
authentication middleware becomes a gate that runs before anything else:
- `AuthGate` lets any signed-in user through;
- `AdminGate` lets only administrators through.

Errors are the `Error` datatype inside a `Result`. `Conflict` covers a
duplicate title and a duplicate comment.

Post update compares the requested title with the stored one before
trimming, while Mongoose trims the value of the lookup query. Resubmitting a
post's own title with white space around it therefore finds the post itself
and is rejected. The model keeps this behaviour (`UpdateRejectsOwnPaddedTitle`).

Modules:
- `Common`: identifiers, `Option`, `Result`, `Error`, `Actor` and the gates.
- `Text`: the ASCII string functions of the JavaScript runtime.
- `Ordering`: sorting a set by a key, and cutting one page from the result.
- `Slugs`: the `replace` steps both normalisers use.
- `PostModel`, `CategoryModel` and `CommentModel`: the three schemas.
- `PostRoutes` and `CommentRoutes`: the route handlers.
- `FrontendApi` and `FrontendPosts`: the two front-end files.

## Model

| member | source | states |
|---|---|---|
| Common.AuthGate | backend/routes/comments.js:64 | only a signed-in user passes; an anonymous caller gets Unauthenticated |
| Common.AdminGate | backend/routes/posts.js:100 | only an administrator passes; an anonymous caller gets Unauthenticated, any other user Forbidden |
| Text.Trim | backend/models/Post.js:4-8 | the result has no white space at either end and is no longer than the input |
| Text.TrimStartSuffix | backend/models/Post.js:4-8 | what remains after the leading white space goes is a suffix of the input |
| Text.TrimEndPrefix | backend/models/Post.js:4-8 | what remains after the trailing white space goes is a prefix of the input |
| Text.TrimKeepsMiddle | backend/models/Post.js:4-8 | the trimmed text is a stretch of the input with only white space before and after it: nothing inside is changed |
| Text.TrimLeadingSpace | backend/routes/posts.js:181-182 | white space in front of a non-empty trimmed text is removed entirely |
| Text.TrimIdempotent | backend/models/Post.js:7 | trimming twice is trimming once |
| Text.JoinSplit | backend/routes/posts.js:135 | joining the pieces of a split on the same separator gives the input back |
| Text.SplitCount | backend/routes/posts.js:135 | a split yields one piece more than there are separators |
| Text.ContainsImpliesIgnoreCase | backend/routes/posts.js:30-36 | an exact occurrence of the search text is also a case-insensitive match |
| Text.ContainsIgnoreCaseOfLower | backend/routes/posts.js:30-36 | the case of the search text does not change what matches |
| Text.NatToStringInjective | backend/models/Post.js:70 | distinct counters render as distinct decimal strings |
| Ordering.Sort | backend/routes/posts.js:56-61 | lists every member of the set exactly once, ordered by the key in the requested direction |
| Ordering.SortedUnique | backend/routes/comments.js:24 | with pairwise different keys there is only one sorted listing of a set |
| Ordering.Paginate | backend/routes/posts.js:60-61 | a page holds at most `limit` entries; entry i is entry `(page-1)*limit + i` of the ordered sequence |
| Ordering.PageCount | backend/routes/posts.js:67 | `ceil(total/limit)`: the least page count whose pages hold every record |
| Ordering.ListingOf | backend/routes/posts.js:63-70 | the ids are exactly the requested page of the ordered matches; `total` counts all matches; `totalPages` is `ceil(total/limit)`; `currentPage` is the requested page |
| Ordering.PagesTile | backend/routes/posts.js:60-61 | consecutive pages are consecutive stretches of the ordered sequence |
| Ordering.RecordOnPage | backend/routes/posts.js:60-61 | record i is entry `i % limit` of page `i / limit + 1` |
| Slugs.Squeeze | backend/models/Post.js:64 | collapsing runs never lengthens the text and leaves it empty only when it was empty |
| Slugs.StripHyphens | backend/models/Post.js:64 | removes at most one leading and at most one trailing hyphen and keeps the rest as it is |
| Slugs.SqueezeNoDoubleHyphen | backend/models/Post.js:64 | collapsing runs of a class that includes `-` leaves no `--`, and starts with `-` only where the input starts with a run |
| Slugs.SqueezeSlugChars | backend/models/Post.js:64 | collapsing runs leaves only `[a-z0-9-]` when the input held nothing else |
| Slugs.StripHyphensClean | backend/models/Post.js:64 | dropping the end hyphens of a string without `--` gives a clean slug |
| Slugs.SqueezeFixed | backend/models/Category.js:34-35 | a string whose run characters are isolated hyphens is unchanged by collapsing |
| Slugs.SqueezeJoins | backend/models/Category.js:34 | two stretches around a run are joined by exactly one hyphen |
| PostModel.ParseStatus | backend/models/Post.js:37-41 | the enum accepts exactly `draft` and `published` |
| PostModel.StatusName | backend/models/Post.js:37-41 | every status name parses back to its status |
| PostModel.NewPost | backend/models/Post.js:37-57 | a new document is a draft with no featured image, zero views and both timestamps at creation time |
| PostModel.ParseTags | backend/routes/posts.js:135 | one tag per comma-separated piece, each the trimmed piece |
| PostModel.BaseSlug | backend/models/Post.js:64 | the base slug has only `[a-z0-9-]`, no `--` and no hyphen at either end |
| PostModel.BaseSlugOfClean | backend/models/Post.js:64 | a clean slug is its own base slug |
| PostModel.BaseSlugIdempotent | backend/models/Post.js:64 | deriving the base slug of a base slug changes nothing |
| PostModel.BaseSlugJoinsWords | backend/models/Post.js:64 | two words around any run outside `[a-z0-9]` give the lowercased words joined by one hyphen |
| PostModel.BaseSlugApostrophe | backend/models/Post.js:64 | the title "don't" gives `don-t` |
| PostModel.BaseSlugAmpersand | backend/models/Post.js:64 | the title "Food & Recipes" gives `food-recipes` |
| PostModel.CandidateInjective | backend/models/Post.js:70 | different counters give different candidates |
| PostModel.ResolveSlug | backend/models/Post.js:64-74 | no other post holds the result; it is the base when the base is free, else `base-k` with every earlier candidate taken |
| PostModel.FirstFreeUnique | backend/models/Post.js:65-72 | the first free candidate is determined by the collection |
| PostModel.Excerpt | backend/models/Post.js:88 | the first `min(150, len)` characters of the content followed by "...", so at most 153 long |
| PostModel.ExcerptFitsSchema | backend/models/Post.js:14-17 | a derived excerpt is within the excerpt bound of 300 |
| PostModel.PreSave | backend/models/Post.js:61-91 | re-slugs to the first free candidate only for a new post, a changed title or an empty slug; always stamps `updatedAt`; fills an empty excerpt from non-empty content; nothing else changes |
| CategoryModel.DropSpecials | backend/models/Category.js:33 | what remains holds only `[a-z0-9\s-]` |
| CategoryModel.DropSpecialsKept | backend/models/Category.js:33 | a string with nothing to delete comes back unchanged |
| CategoryModel.CategorySlug | backend/models/Category.js:31-36 | the category slug is never longer than the name |
| CategoryModel.CategorySlugClean | backend/models/Category.js:31-36 | the category slug has only `[a-z0-9-]`, no `--` and no hyphen at either end |
| CategoryModel.CategorySlugOfClean | backend/models/Category.js:31-36 | a clean slug is its own category slug |
| CategoryModel.CategorySlugIdempotent | backend/models/Category.js:31-36 | deriving the category slug of a category slug changes nothing |
| CategoryModel.CategorySlugDeletesSpecials | backend/models/Category.js:33 | two words with only special characters between them run together |
| CategoryModel.CategorySlugJoinsWords | backend/models/Category.js:33-35 | specials go before white space turns into `-`: words around white space, specials and white space join with one hyphen |
| CategoryModel.CategorySlugAmpersand | backend/models/Category.js:33-35 | the name "Food & Recipes" gives `food-recipes` |
| CategoryModel.CategorySlugApostrophe | backend/models/Category.js:31-36 | the name "don't" gives `dont` |
| CategoryModel.SchemaError | backend/models/Category.js:4-15 | a trimmed document fails exactly when the name is empty or over 50, or the description over 200 |
| CategoryModel.PreSave | backend/models/Category.js:28-40 | re-derives the slug from a non-empty name only for a new category or a changed name; name, description and creation time stay |
| CategoryModel.WriteKeepsUnique | backend/models/Category.js:4-20 | a write the name and slug indexes let through keeps both unique |
| CategoryModel.Fresh | backend/models/Category.js:28-40 | a new document has the trimmed fields and the slug of its name |
| CategoryModel.FreshValid | backend/models/Category.js:4-36 | a new document that passes the validators is a valid category |
| CategoryModel.Assign | backend/models/Category.js:4-15 | assigned fields go through the trim setters; slug and creation time stay |
| CategoryModel.Reassigned | backend/models/Category.js:28-40 | the saved document has the assigned (trimmed) name and description and its creation time; its slug is the old one or the slug of the new name |
| CategoryModel.ReassignKeepsSlug | backend/models/Category.js:29 | editing only the description, or assigning the same name, keeps name and slug |
| CategoryModel.ReassignRenames | backend/models/Category.js:29-36 | a renamed category gets the slug of the new name |
| CategoryModel.ReassignValid | backend/models/Category.js:4-36 | a valid category saved with accepted fields stays valid |
| CategoryModel.CategoryStore.Create | backend/models/Category.js:3-40 | the clock advances by one; a validation failure or index clash stores nothing; otherwise exactly the fresh document is added under a new id |
| CategoryModel.CategoryStore.Modify | backend/models/Category.js:28-40 | a validation failure or index clash stores nothing; otherwise exactly this category becomes the re-saved document |
| CategoryModel.CategoryStore.Put | backend/models/Category.js:4-20 | writing a valid document the name and slug indexes let through keeps the store valid; only that entry changes |
| PostRoutes.WriteKeepsUnique | backend/models/Post.js:18-22 | a write whose slug and title no other post holds keeps slugs and titles unique |
| PostRoutes.DefaultListsPublished | backend/routes/posts.js:17-27 | without a status parameter only published posts are listed |
| PostRoutes.AllStatusesListed | backend/routes/posts.js:24-27 | `status=all` or an empty status applies no status filter |
| PostRoutes.UnknownCategoryIgnored | backend/routes/posts.js:38-44 | a category slug no category carries filters nothing out |
| PostRoutes.KnownCategoryFilters | backend/routes/posts.js:38-44 | a known category slug keeps exactly the posts of that category |
| PostRoutes.VerbatimTitleMatches | backend/routes/posts.js:29-36 | a title containing the search text matches the search |
| PostRoutes.TagsOf | backend/routes/posts.js:135 | no tags field gives no tags; otherwise the tags are the trimmed comma-separated pieces |
| PostRoutes.StatusOf | backend/routes/posts.js:136 | an absent status is `draft`; otherwise the enum decides |
| PostRoutes.NewDocument | backend/routes/posts.js:129-138 | a document is built exactly when the status is in the enum; it has the trimmed title, the given content, excerpt, category, tags, status and image, the author, no slug yet, zero views and both timestamps now |
| PostRoutes.NewDocumentValid | backend/models/Post.js:3-22 | the validators accept the new document exactly when title, excerpt and status are acceptable |
| PostRoutes.CreateRejection | backend/routes/posts.js:100-140 | the gate's error comes first; a create is accepted exactly for an administrator with title, content and a stored category, a free trimmed title and fields the schema accepts; every error is one of the route's |
| PostRoutes.CreateRejectsTakenTitle | backend/routes/posts.js:123-127 | a title held by any post, draft or published, blocks a create |
| PostRoutes.CreateCheckOrder | backend/routes/posts.js:100-127 | an accepted create comes from an administrator and has the required fields, an existing category and a free title; missing fields fail before the category is looked up |
| PostRoutes.Merge | backend/routes/posts.js:188-194 | a non-empty title (trimmed), content, excerpt or tags (parsed), a category reference and any given `featuredImage` replace the old values; the status is the resolved one; author, views, slug and both timestamps stay |
| PostRoutes.MergeRules | backend/routes/posts.js:188-194 | falsy fields keep the old value; an empty `featuredImage` is taken; author, views, slug and timestamps are never assigned |
| PostRoutes.MergeKeepsExcerpt | backend/routes/posts.js:188-196 | a merged post keeps an excerpt, so changing the content leaves the old excerpt |
| PostRoutes.UpdateRejection | backend/routes/posts.js:154-196 | the gate's error comes first; an update is accepted exactly when it comes from an administrator, has no blank field, names a stored post and a stored category if any, does not rename the post to a title some post holds, and its merged post passes the schema; every error is one of the route's |
| PostRoutes.UpdateContentAccepted | backend/routes/posts.js:154-196 | an administrator's edit of only the content of a stored post, to any non-empty text, is accepted |
| PostRoutes.UpdateRejectsOtherTitle | backend/routes/posts.js:180-186 | renaming a post to another post's title is rejected |
| PostRoutes.UpdateRejectsOwnPaddedTitle | backend/routes/posts.js:181-182 | for any stored post and any non-empty white space in front, resubmitting the post's own title that way is rejected as a Conflict |
| PostRoutes.PostStore.List | backend/routes/posts.js:10-75 | exactly the posts passing the status, search and category filters, each once, in the requested order, with one page of them and the counters |
| PostRoutes.PostStore.ListByCategory | backend/routes/posts.js:226-255 | NotFound exactly for an unknown category; otherwise the category found by the slug, with its published posts, each once, newest first, and one page of them |
| PostRoutes.PostStore.Insert | backend/models/Post.js:61-91 | the document is added under a new id with the first free slug, the save time and a filled excerpt; nothing else changes |
| PostRoutes.PostStore.Save | backend/models/Post.js:61-91 | only this post changes: the document with its slug kept or re-derived, and the save time |
| PostRoutes.PostStore.GetBySlug | backend/routes/posts.js:78-97 | NotFound exactly when no post has the slug; otherwise only that post changes, gaining one view and a new `updatedAt` |
| PostRoutes.PostStore.Create | backend/routes/posts.js:100-151 | fails with the first rejection and stores nothing; otherwise adds the built document with its slug and excerpt under a new id |
| PostRoutes.PostStore.Update | backend/routes/posts.js:154-207 | fails with the first rejection and stores nothing; otherwise only this post becomes the merged document, re-slugged exactly when its title changed or its slug is empty |
| PostRoutes.PostStore.Delete | backend/routes/posts.js:210-223 | gate, then NotFound for a missing id; otherwise removes exactly that post |
| CommentModel.ParseCommentStatus | backend/models/Comment.js:25-29 | the enum accepts exactly `pending`, `approved` and `rejected` |
| CommentModel.CommentStatusName | backend/models/Comment.js:25-29 | every status name parses back to its status |
| CommentModel.NewComment | backend/models/Comment.js:4-33 | a new comment has trimmed content, status approved, and a parent only when one is given |
| CommentModel.NewCommentValid | backend/models/Comment.js:4-9 | a new comment is valid exactly when its trimmed content is non-empty and at most 1000 long |
| CommentModel.WriteKeepsTriplesUnique | backend/models/Comment.js:37 | a write the (author, post, content) index lets through keeps the triples unique |
| CommentModel.RemoveKeepsTriplesUnique | backend/models/Comment.js:37 | removing comments keeps the triples unique |
| CommentModel.StatusChangeKeepsTriplesUnique | backend/models/Comment.js:37 | a status change keeps the triples unique |
| CommentRoutes.UnapprovedHidden | backend/routes/comments.js:14-34 | a comment that is not approved is listed neither as a root nor as a reply |
| CommentRoutes.ReplyNeverRoot | backend/routes/comments.js:14-34 | a reply is never listed as a root |
| CommentRoutes.CreateRejection | backend/routes/comments.js:64-108 | the gate's error comes first; a create is accepted exactly for a signed-in user with content, a stored post, a stored parent if any, no repeated triple and content the schema accepts; every error is one of the route's |
| CommentRoutes.CreateAccepted | backend/routes/comments.js:64-106 | an accepted create has a signed-in author, a stored post, a stored parent if any, no repeated triple and acceptable content |
| CommentRoutes.CreateRejectsRepeat | backend/routes/comments.js:90-99 | the same trimmed text from the same user on the same post is rejected, as root or reply |
| CommentRoutes.CreateRejectsBlank | backend/routes/comments.js:65-108 | white-space-only content passes the route check but is rejected by the schema |
| CommentRoutes.Edited | backend/routes/comments.js:146 | only the content changes, to the trimmed text |
| CommentRoutes.UpdateRejection | backend/routes/comments.js:125-147 | the gate's error comes first; an edit is accepted exactly for the author or an administrator with content the schema accepts that clashes with no other comment's triple; every error is one of the route's |
| CommentRoutes.UpdateForbiddenToOthers | backend/routes/comments.js:141-144 | a signed-in user who is neither the author nor an administrator is refused |
| CommentRoutes.UpdateWithOwnContent | backend/routes/comments.js:146-147 | resubmitting a comment's own text, however padded, succeeds |
| CommentRoutes.UpdateRejectsClash | backend/routes/comments.js:146-147 | editing into the text of another comment by the same author on the same post is refused |
| CommentRoutes.DeleteRejection | backend/routes/comments.js:161-172 | the gate's error comes first; a delete is accepted exactly for a stored comment and its author or an administrator |
| CommentRoutes.Cascade | backend/routes/comments.js:175-180 | removes exactly the comment and its direct replies; every other comment stays unchanged |
| CommentRoutes.CascadeOrphansGrandchildren | backend/routes/comments.js:175-180 | a reply to a reply stays, pointing at a deleted parent |
| CommentRoutes.CascadeKeepsValid | backend/routes/comments.js:175-180 | the remaining comments stay valid and their triples unique |
| CommentRoutes.AdminStatusFilter | backend/routes/comments.js:192-193 | a status outside the enum selects nothing; one inside it selects exactly the comments with that status |
| CommentRoutes.StatusRejection | backend/routes/comments.js:217-231 | the gate's error comes first; a status change is accepted exactly for an administrator, a status in the enum and a stored comment |
| CommentRoutes.StatusAnyToAny | backend/routes/comments.js:217-234 | an administrator can set any stored comment to any status |
| CommentRoutes.CommentStore.ListForPost | backend/routes/comments.js:10-61 | the post's approved roots, each once, newest first, one page of them, each with all its approved replies, each once, oldest first |
| CommentRoutes.CommentStore.Create | backend/routes/comments.js:64-122 | fails with the first rejection and stores nothing; otherwise adds the new comment under a new id |
| CommentRoutes.CommentStore.Update | backend/routes/comments.js:125-158 | fails with the first rejection and stores nothing; otherwise only this comment's content changes, to the trimmed text |
| CommentRoutes.CommentStore.Delete | backend/routes/comments.js:161-187 | fails with the first rejection and stores nothing; otherwise the store becomes the cascade of the comment |
| CommentRoutes.CommentStore.AdminList | backend/routes/comments.js:190-214 | administrators only; every comment, or those with the given status, each once, newest first, 20 to a page by default |
| CommentRoutes.CommentStore.SetStatus | backend/routes/comments.js:217-245 | fails with the first rejection and stores nothing; otherwise only this comment's status changes |
| FrontendApi.TruncateText | frontend/js/api.js:198-201 | text within the bound comes back unchanged; longer text becomes its first `maxLength` characters (none for a negative bound) followed by "..." |
| FrontendApi.Substring | frontend/js/api.js:200 | the prefix of the text, with the end clamped to between 0 and the length |
| FrontendApi.TruncateShort | frontend/js/api.js:199 | text no longer than the bound is returned unchanged |
| FrontendApi.TruncateLong | frontend/js/api.js:200 | longer text becomes its first `maxLength` characters and "...", so `maxLength + 3` long |
| FrontendApi.TruncateDefault | frontend/js/api.js:198 | the bound defaults to 150, so a long text becomes 153 long |
| FrontendApi.TruncateKeepsPrefix | frontend/js/api.js:198-201 | the result starts with the first `min(len, maxLength)` characters |
| FrontendApi.TruncateIdempotent | frontend/js/api.js:198-201 | truncating a truncated text with the same bound changes nothing |
| FrontendPosts.Window | frontend/js/posts.js:118-129 | the window of pages 1 to n holds at most one item per page |
| FrontendPosts.Pagination | frontend/js/posts.js:102-137 | the bar is empty exactly for at most one page; otherwise it starts with Previous and ends with Next |
| FrontendPosts.WindowShape | frontend/js/posts.js:118-129 | the window holds only page buttons and gaps, for pages 1 to `totalPages` |
| FrontendPosts.WindowAscending | frontend/js/posts.js:118-129 | the window is in ascending page order, each page at most once |
| FrontendPosts.WindowButtons | frontend/js/posts.js:118-125 | page i has a button exactly when it is the first, the last or within 2 of the current page; a button is active exactly on the current page |
| FrontendPosts.WindowGaps | frontend/js/posts.js:126-128 | "..." stands at page i exactly when i is 3 away from the current page and has no button |
| FrontendPosts.SinglePageNoBar | frontend/js/posts.js:102-105 | with at most one page the bar is empty |
| FrontendPosts.PrevNextDisabled | frontend/js/posts.js:110-137 | Previous is disabled exactly on page 1, Next exactly on the last page |
| FrontendPosts.ExactlyOneActive | frontend/js/posts.js:119-123 | for a current page in range exactly one button is active, the current page's |
| FrontendPosts.RenderPagination | frontend/js/posts.js:99-140 | the loop builds exactly the bar: Previous, the window, Next |
| FrontendPosts.PostsManager.constructor | frontend/js/posts.js:3-5 | starts on page 1 with no search and no category |
| FrontendPosts.PostsManager.SearchPosts | frontend/js/posts.js:152-156 | takes the search text and resets the page to 1; the category filter stays |
| FrontendPosts.PostsManager.FilterByCategory | frontend/js/posts.js:158-162 | takes the category and resets the page to 1; the search text stays |

## Left out

- Regular expressions: a search is a case-insensitive substring test. Metacharacters in the search text are not modelled.
- Strings are ASCII only: `toLowerCase`, `trim` and `\s` on characters outside ASCII are not modelled.
- Concurrency is not modelled. This covers the check-then-insert races on slugs and duplicate comments, the parallel reply queries, and lost view updates. Each route runs atomically, and the unique indexes are store invariants.
- `Date.now` is a counter of each store, so time stamps only order. Inserting a post or comment and saving a post advance it by one. Creating a category advances it even when the save is rejected, since the document takes its `createdAt` default when it is built, before validation. Editing a comment or changing its status stamps no time, since comments have only `createdAt`.
- `populate` joins, ObjectId casting and the exact HTTP status codes are not modelled. The route results are the `Error` values.
- `page` and `limit` are positive integers. A limit of 0 (no limit), a non-numeric value (NaN) and negative offsets are not modelled.
- Sorting by fields other than `createdAt`, `updatedAt` and `views` is not modelled.
- The `auth` and `adminAuth` middleware, the User model and tokens are not part of this model. They become the `AuthGate` and `AdminGate` functions of the actor.
- The category CRUD routes are not part of this model. `CategoryModel.CategoryStore` stands for the saves such routes would perform.
- Seed and maintenance scripts are not part of this model.
- The DOM, `fetch`, `loadPosts`, `formatDate`, toasts and the rest of the front end are not modelled: they are UI and I/O.
- Every Mongoose `ValidationError`, which the routes answer with a server error, is the named error `ValidationFailed`. These cases are:
  - a post title that trims to nothing;
  - a post title over 200 characters;
  - a post excerpt over 300 characters;
  - a post status outside the enum, on create and on update;
  - comment content that is only white space, on create and on update;
  - comment content over 1000 characters, on create and on update.
- A comment update that violates the (author, post, content) index also reaches the server-error path in the source. It is the named error `Conflict`.
- `PostRoutes.PostStore.Delete` leaves the post's comments in place, as the source does. No cascade to comments is modelled.
- PostRoutes.PostStore.GetBySlug: requires a non-empty slug, because an empty path segment never reaches the `/:slug` route.
- CommentRoutes.CommentStore.ListForPost: the reply queries run one after another in a loop, where the source maps over the roots with `Promise.all`. Each query reads the same unchanged store, so the result is the same.
- Text.Trim: its own contract says only that the ends are not white space and the result is no longer than the input. That only the end white space goes and the middle is kept is the lemma `Text.TrimKeepsMiddle`; as a postcondition of `Trim` it would accompany every trimmed string in every store proof.
- FrontendApi.TruncateText: `text` is taken to be a string. A missing text, which would throw in the source, is not modelled.
- Text values compared by `!==` and `findOne` are compared as whole strings. Collation and case-insensitive indexes are not modelled, as the source configures none.
