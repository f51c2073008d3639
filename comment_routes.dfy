/** The comment routes of backend/routes/comments.js over a store of comment
    documents: the public threaded listing of a post, posting, editing and
    deleting comments, and the administrator's moderation list and status change. */
module CommentRoutes {
  import opened Common
  import opened Text
  import opened Ordering
  import opened CommentModel

  // ---------------------------------------------------------------- store invariant

  /** Every stored comment is valid and has an id below `bound`. */
  predicate AllValid(comments: map<CommentId, Comment>, bound: nat)
  {
    forall id :: id in comments ==> id < bound && ValidComment(comments[id])
  }

  lemma StoreKeepsValid(comments: map<CommentId, Comment>, bound: nat, id: CommentId, c: Comment)
    requires AllValid(comments, bound)
    requires id < bound && ValidComment(c)
    ensures AllValid(comments[id := c], bound)
  {
  }

  /** The creation time of a stored comment, looked up by id. */
  function KeyOf(comments: map<CommentId, Comment>): CommentId -> int
  {
    id => if id in comments then comments[id].createdAt else 0
  }

  // ---------------------------------------------------------------- public listing

  /** The filter `{ post, status: 'approved', parentComment: null }`. */
  predicate ApprovedRoot(c: Comment, post: PostId)
  {
    c.post == post && c.status == Approved && c.parentComment.None?
  }

  /** The filter `{ parentComment: root, status: 'approved' }`; the reply's own
      post is not consulted. */
  predicate ApprovedReply(c: Comment, root: CommentId)
  {
    c.parentComment == Some(root) && c.status == Approved
  }

  /** A root comment of the page with its replies. */
  datatype Thread = Thread(root: CommentId, replies: seq<CommentId>)

  /** `replies` lists every approved reply to `root` once, oldest first. */
  ghost predicate RepliesListed(comments: map<CommentId, Comment>, root: CommentId, replies: seq<CommentId>)
  {
    && (forall x :: x in replies <==> x in comments && ApprovedReply(comments[x], root))
    && Distinct(replies)
    && SortedBy(replies, KeyOf(comments), false)
  }

  /** A comment that is not approved appears neither as a root nor as a reply. */
  lemma UnapprovedHidden(c: Comment, post: PostId, root: CommentId)
    requires c.status != Approved
    ensures !ApprovedRoot(c, post) && !ApprovedReply(c, root)
  {
  }

  /** A reply is never a root, so it is listed only under its parent. */
  lemma ReplyNeverRoot(c: Comment, post: PostId, root: CommentId)
    requires ApprovedReply(c, root)
    ensures !ApprovedRoot(c, post)
  {
  }

  // ---------------------------------------------------------------- create

  /** The first reason `POST /` fails, in the order of the route
      (backend/routes/comments.js:64-108), or None when the comment is inserted.
      `postId` None is a missing post id, `parent` None a missing or empty
      `parentCommentId`; `posts` holds the ids of the stored posts. */
  function CreateRejection(actor: Actor, content: string, postId: Option<PostId>, parent: Option<CommentId>,
                           comments: map<CommentId, Comment>, posts: set<PostId>): (e: Option<Error>)
    ensures AuthGate(actor).Some? ==> e == AuthGate(actor)
    ensures e.None? <==>
              && actor.User? && content != [] && postId.Some? && postId.value in posts
              && (parent.Some? ==> parent.value in comments)
              && !TripleTaken(comments, actor.id, postId.value, Trim(content))
              && ContentAccepted(Trim(content))
    ensures e.Some? ==> e.value in {Unauthenticated, ValidationFailed, NotFound(PostEntity), NotFound(CommentEntity), Conflict}
  {
    if AuthGate(actor).Some? then AuthGate(actor)
    else if content == [] || postId.None? then Some(ValidationFailed)
    else if postId.value !in posts then Some(NotFound(PostEntity))
    else if parent.Some? && parent.value !in comments then Some(NotFound(CommentEntity))
    else if TripleTaken(comments, actor.id, postId.value, Trim(content)) then Some(Conflict)
    else if !ContentAccepted(Trim(content)) then Some(ValidationFailed)
    else None
  }

  /** A request that passes every check comes from a signed-in user, names a
      stored post and (if any) a stored parent, repeats no comment of that
      user on that post, and has acceptable trimmed content. */
  lemma CreateAccepted(actor: Actor, content: string, postId: Option<PostId>, parent: Option<CommentId>,
                       comments: map<CommentId, Comment>, posts: set<PostId>)
    requires CreateRejection(actor, content, postId, parent, comments, posts) == None
    ensures actor.User? && postId.Some? && postId.value in posts
    ensures parent.Some? ==> parent.value in comments
    ensures forall k | k in comments :: !SameTriple(comments[k], NewComment(content, actor.id, postId.value, parent, 0))
    ensures ContentAccepted(Trim(content))
  {
  }

  /** Posting the same text twice on a post (as a root, as a reply, or with
      different surrounding white space) is rejected the second time. */
  lemma CreateRejectsRepeat(actor: Actor, content: string, again: string, postId: PostId,
                            parent: Option<CommentId>, other: Option<CommentId>,
                            comments: map<CommentId, Comment>, posts: set<PostId>, k: CommentId)
    requires actor.User? && again != [] && postId in posts
    requires other.Some? ==> other.value in comments
    requires k in comments && comments[k].author == actor.id && comments[k].post == postId
    requires comments[k].content == Trim(content) && Trim(again) == Trim(content)
    ensures CreateRejection(actor, again, Some(postId), other, comments, posts) == Some(Conflict)
  {
  }

  /** Content that is only white space passes the route's `notEmpty` check
      but not the schema: it is rejected, never stored. */
  lemma CreateRejectsBlank(actor: Actor, content: string, postId: PostId, parent: Option<CommentId>,
                           comments: map<CommentId, Comment>, bound: nat, posts: set<PostId>)
    requires AllValid(comments, bound)
    requires actor.User? && content != [] && Trim(content) == [] && postId in posts
    requires parent.Some? ==> parent.value in comments
    ensures CreateRejection(actor, content, Some(postId), parent, comments, posts) == Some(ValidationFailed)
  {
  }

  // ---------------------------------------------------------------- update

  /** The author of a comment and any administrator may change or delete it. */
  predicate MayEdit(actor: Actor, c: Comment)
  {
    actor.User? && (c.author == actor.id || actor.role == Admin)
  }

  /** `comment.content = content.trim()`; nothing else changes, not even the
      author when an administrator edits. */
  function Edited(c: Comment, content: string): (d: Comment)
    ensures d.content == Trim(content)
    ensures d.author == c.author && d.post == c.post && d.parentComment == c.parentComment
    ensures d.status == c.status && d.createdAt == c.createdAt
  {
    c.(content := Trim(content))
  }

  /** The first reason `PUT /:id` fails, in the order of the route
      (backend/routes/comments.js:125-147), or None when the comment is saved. */
  function UpdateRejection(actor: Actor, id: CommentId, content: string, comments: map<CommentId, Comment>): (e: Option<Error>)
    ensures AuthGate(actor).Some? ==> e == AuthGate(actor)
    ensures e.None? <==>
              && actor.User? && content != [] && id in comments && MayEdit(actor, comments[id])
              && ContentAccepted(Trim(content))
              && !TripleClash(comments, id, Edited(comments[id], content))
    ensures e.Some? ==> e.value in {Unauthenticated, ValidationFailed, NotFound(CommentEntity), Forbidden, Conflict}
  {
    if AuthGate(actor).Some? then AuthGate(actor)
    else if content == [] then Some(ValidationFailed)
    else if id !in comments then Some(NotFound(CommentEntity))
    else if !MayEdit(actor, comments[id]) then Some(Forbidden)
    else if !ContentAccepted(Trim(content)) then Some(ValidationFailed)
    else if TripleClash(comments, id, Edited(comments[id], content)) then Some(Conflict)
    else None
  }

  /** A signed-in user who is neither the author nor an administrator is refused. */
  lemma UpdateForbiddenToOthers(actor: Actor, id: CommentId, content: string, comments: map<CommentId, Comment>)
    requires actor.User? && actor.role != Admin && content != []
    requires id in comments && comments[id].author != actor.id
    ensures UpdateRejection(actor, id, content, comments) == Some(Forbidden)
  {
  }

  /** Resubmitting a comment's own text, however padded, succeeds: the
      comment does not clash with itself. */
  lemma UpdateWithOwnContent(actor: Actor, id: CommentId, content: string, comments: map<CommentId, Comment>, bound: nat)
    requires AllValid(comments, bound) && TriplesUnique(comments)
    requires content != [] && id in comments && MayEdit(actor, comments[id])
    requires Trim(content) == comments[id].content
    ensures UpdateRejection(actor, id, content, comments) == None
  {
    assert Edited(comments[id], content) == comments[id];
  }

  /** Changing a comment to the text of another comment of the same author on
      the same post is refused by the unique index. */
  lemma UpdateRejectsClash(actor: Actor, id: CommentId, content: string, comments: map<CommentId, Comment>, k: CommentId)
    requires content != [] && id in comments && MayEdit(actor, comments[id]) && ContentAccepted(Trim(content))
    requires k in comments && k != id && SameTriple(comments[k], Edited(comments[id], content))
    ensures UpdateRejection(actor, id, content, comments) == Some(Conflict)
  {
  }

  // ---------------------------------------------------------------- delete

  /** `deleteMany({ $or: [{ _id: id }, { parentComment: id }] })`. */
  function Cascade(comments: map<CommentId, Comment>, id: CommentId): (m: map<CommentId, Comment>)
    ensures forall k :: k in m <==> k in comments && k != id && comments[k].parentComment != Some(id)
    ensures forall k | k in m :: m[k] == comments[k]
  {
    map k | k in comments && k != id && comments[k].parentComment != Some(id) :: comments[k]
  }

  /** Only the direct replies go with a comment: a reply to a reply stays,
      pointing at a parent that no longer exists. */
  lemma CascadeOrphansGrandchildren(comments: map<CommentId, Comment>, id: CommentId, reply: CommentId, g: CommentId)
    requires reply in comments && comments[reply].parentComment == Some(id)
    requires g in comments && g != id && comments[g].parentComment == Some(reply) && reply != id
    ensures g in Cascade(comments, id) && reply !in Cascade(comments, id)
    ensures Cascade(comments, id)[g].parentComment.value !in Cascade(comments, id)
  {
  }

  /** Deleting keeps every remaining comment valid and the triples unique. */
  lemma CascadeKeepsValid(comments: map<CommentId, Comment>, bound: nat, id: CommentId)
    requires AllValid(comments, bound) && TriplesUnique(comments)
    ensures AllValid(Cascade(comments, id), bound) && TriplesUnique(Cascade(comments, id))
  {
    var keep := set k | k in comments && k != id && comments[k].parentComment != Some(id);
    RemoveKeepsTriplesUnique(comments, keep);
    assert Cascade(comments, id) == map k | k in comments && k in keep :: comments[k];
  }

  /** The first reason `DELETE /:id` fails (backend/routes/comments.js:161-172). */
  function DeleteRejection(actor: Actor, id: CommentId, comments: map<CommentId, Comment>): (e: Option<Error>)
    ensures AuthGate(actor).Some? ==> e == AuthGate(actor)
    ensures e.None? <==> actor.User? && id in comments && MayEdit(actor, comments[id])
    ensures e.Some? ==> e.value in {Unauthenticated, NotFound(CommentEntity), Forbidden}
  {
    if AuthGate(actor).Some? then AuthGate(actor)
    else if id !in comments then Some(NotFound(CommentEntity))
    else if !MayEdit(actor, comments[id]) then Some(Forbidden)
    else None
  }

  // ---------------------------------------------------------------- moderation

  /** The `status` filter of `GET /admin`: none when absent or empty,
      otherwise the literal status name. */
  predicate AdminSelects(c: Comment, status: Option<string>)
  {
    !Truthy(status) || CommentStatusName(c.status) == status.value
  }

  /** A status name outside the enum selects nothing; a name inside it
      selects exactly the comments with that status. */
  lemma AdminStatusFilter(c: Comment, status: string)
    requires status != []
    ensures ParseCommentStatus(status).None? ==> !AdminSelects(c, Some(status))
    ensures ParseCommentStatus(status).Some? ==>
              (AdminSelects(c, Some(status)) <==> c.status == ParseCommentStatus(status).value)
  {
  }

  /** The first reason `PATCH /:id/status` fails (backend/routes/comments.js:217-231). */
  function StatusRejection(actor: Actor, id: CommentId, status: string, comments: map<CommentId, Comment>): (e: Option<Error>)
    ensures AdminGate(actor).Some? ==> e == AdminGate(actor)
    ensures e.None? <==> AdminGate(actor).None? && ParseCommentStatus(status).Some? && id in comments
    ensures e.Some? ==> e.value in {Unauthenticated, Forbidden, ValidationFailed, NotFound(CommentEntity)}
  {
    if AdminGate(actor).Some? then AdminGate(actor)
    else if ParseCommentStatus(status).None? then Some(ValidationFailed)
    else if id !in comments then Some(NotFound(CommentEntity))
    else None
  }

  /** Every status is reachable from every other: moderation is not a one-way street. */
  lemma StatusAnyToAny(actor: Actor, id: CommentId, comments: map<CommentId, Comment>, st: CommentStatus)
    requires actor.User? && actor.role == Admin && id in comments
    ensures StatusRejection(actor, id, CommentStatusName(st), comments) == None
    ensures ParseCommentStatus(CommentStatusName(st)) == Some(st)
  {
  }

  // ---------------------------------------------------------------- the store

  /** The comments collection with its unique index. `clock` stands for
      `Date.now`: every insert stamps the next value. */
  class CommentStore {
    var comments: map<CommentId, Comment>
    var nextId: CommentId
    var clock: nat

    ghost predicate Valid()
      reads this
    {
      AllValid(comments, nextId) && TriplesUnique(comments)
    }

    constructor ()
      ensures Valid() && comments == map[]
    {
      comments := map[];
      nextId := 0;
      clock := 0;
    }

    /** `GET /post/:postId`: one page of the post's approved root comments,
        newest first, each with all its approved replies, oldest first. */
    method ListForPost(post: PostId, page: Option<Pos>, limit: Option<Pos>)
      returns (roots: seq<CommentId>, listing: Listing<CommentId>, threads: seq<Thread>)
      ensures forall id :: id in roots <==> id in comments && ApprovedRoot(comments[id], post)
      ensures Distinct(roots) && SortedBy(roots, KeyOf(comments), true)
      ensures listing == ListingOf(roots, OrElse(page, 1), OrElse(limit, 10))
      ensures |threads| == |listing.ids|
      ensures forall i :: 0 <= i < |threads| ==>
                threads[i].root == listing.ids[i] && RepliesListed(comments, listing.ids[i], threads[i].replies)
    {
      var matching := set id | id in comments && ApprovedRoot(comments[id], post);
      roots := Sort(matching, KeyOf(comments), true);
      listing := ListingOf(roots, OrElse(page, 1), OrElse(limit, 10));
      threads := [];
      var i := 0;
      while i < |listing.ids|
        invariant 0 <= i <= |listing.ids| && |threads| == i
        invariant forall j :: 0 <= j < i ==>
                    threads[j].root == listing.ids[j] && RepliesListed(comments, listing.ids[j], threads[j].replies)
      {
        var root := listing.ids[i];
        var replies := set x | x in comments && ApprovedReply(comments[x], root);
        var ordered := Sort(replies, KeyOf(comments), false);
        threads := threads + [Thread(root, ordered)];
        i := i + 1;
      }
    }

    /** `POST /`: a signed-in user comments on a post, or replies to a comment. */
    method Create(actor: Actor, content: string, postId: Option<PostId>, parent: Option<CommentId>, posts: set<PostId>)
      returns (r: Result<CommentId>)
      requires Valid()
      modifies this
      ensures Valid()
      ensures r.Err? <==> CreateRejection(actor, content, postId, parent, old(comments), posts).Some?
      ensures r.Err? ==> Some(r.error) == CreateRejection(actor, content, postId, parent, old(comments), posts)
                         && comments == old(comments)
      ensures r.Ok? ==>
                && r.value !in old(comments)
                && clock == old(clock) + 1
                && comments == old(comments)[r.value := NewComment(content, actor.id, postId.value, parent, clock)]
    {
      var gate := AuthGate(actor);
      if gate.Some? {
        r := Err(gate.value);
        return;
      }
      if content == [] || postId.None? {
        r := Err(ValidationFailed);
        return;
      }
      if postId.value !in posts {
        r := Err(NotFound(PostEntity));
        return;
      }
      if parent.Some? && parent.value !in comments {
        r := Err(NotFound(CommentEntity));
        return;
      }
      if TripleTaken(comments, actor.id, postId.value, Trim(content)) {
        r := Err(Conflict);
        return;
      }
      if !ContentAccepted(Trim(content)) {
        r := Err(ValidationFailed);
        return;
      }
      clock := clock + 1;
      var c := NewComment(content, actor.id, postId.value, parent, clock);
      NewCommentValid(content, actor.id, postId.value, parent, clock);
      WriteKeepsTriplesUnique(comments, nextId, c);
      StoreKeepsValid(comments, nextId + 1, nextId, c);
      comments := comments[nextId := c];
      r := Ok(nextId);
      nextId := nextId + 1;
    }

    /** `PUT /:id`: the author or an administrator replaces the content. */
    method Update(actor: Actor, id: CommentId, content: string) returns (r: Result<CommentId>)
      requires Valid()
      modifies this
      ensures Valid()
      ensures nextId == old(nextId) && clock == old(clock)
      ensures r.Err? <==> UpdateRejection(actor, id, content, old(comments)).Some?
      ensures r.Err? ==> Some(r.error) == UpdateRejection(actor, id, content, old(comments)) && comments == old(comments)
      ensures r.Ok? ==> r.value == id && id in old(comments)
                        && comments == old(comments)[id := Edited(old(comments)[id], content)]
    {
      var gate := AuthGate(actor);
      if gate.Some? {
        r := Err(gate.value);
        return;
      }
      if content == [] {
        r := Err(ValidationFailed);
        return;
      }
      if id !in comments {
        r := Err(NotFound(CommentEntity));
        return;
      }
      var c := comments[id];
      if !MayEdit(actor, c) {
        r := Err(Forbidden);
        return;
      }
      if !ContentAccepted(Trim(content)) {
        r := Err(ValidationFailed);
        return;
      }
      var d := Edited(c, content);
      if TripleClash(comments, id, d) {
        r := Err(Conflict);
        return;
      }
      WriteKeepsTriplesUnique(comments, id, d);
      StoreKeepsValid(comments, nextId, id, d);
      comments := comments[id := d];
      r := Ok(id);
    }

    /** `DELETE /:id`: the author or an administrator removes the comment and
        its direct replies. */
    method Delete(actor: Actor, id: CommentId) returns (r: Result<CommentId>)
      requires Valid()
      modifies this
      ensures Valid()
      ensures nextId == old(nextId) && clock == old(clock)
      ensures r.Err? <==> DeleteRejection(actor, id, old(comments)).Some?
      ensures r.Err? ==> Some(r.error) == DeleteRejection(actor, id, old(comments)) && comments == old(comments)
      ensures r.Ok? ==> r.value == id && comments == Cascade(old(comments), id)
    {
      var gate := AuthGate(actor);
      if gate.Some? {
        r := Err(gate.value);
        return;
      }
      if id !in comments {
        r := Err(NotFound(CommentEntity));
        return;
      }
      if !MayEdit(actor, comments[id]) {
        r := Err(Forbidden);
        return;
      }
      CascadeKeepsValid(comments, nextId, id);
      comments := Cascade(comments, id);
      r := Ok(id);
    }

    /** `GET /admin`: every comment, or those with the given status, newest
        first, 20 to a page by default. */
    method AdminList(actor: Actor, status: Option<string>, page: Option<Pos>, limit: Option<Pos>)
      returns (ordered: seq<CommentId>, r: Result<Listing<CommentId>>)
      ensures r.Err? <==> AdminGate(actor).Some?
      ensures r.Err? ==> Some(r.error) == AdminGate(actor)
      ensures r.Ok? ==>
                && (forall id :: id in ordered <==> id in comments && AdminSelects(comments[id], status))
                && Distinct(ordered)
                && SortedBy(ordered, KeyOf(comments), true)
                && r.value == ListingOf(ordered, OrElse(page, 1), OrElse(limit, 20))
    {
      var gate := AdminGate(actor);
      if gate.Some? {
        ordered := [];
        r := Err(gate.value);
        return;
      }
      var matching := set id | id in comments && AdminSelects(comments[id], status);
      ordered := Sort(matching, KeyOf(comments), true);
      r := Ok(ListingOf(ordered, OrElse(page, 1), OrElse(limit, 20)));
    }

    /** `PATCH /:id/status`: an administrator sets a comment's status. */
    method SetStatus(actor: Actor, id: CommentId, status: string) returns (r: Result<CommentId>)
      requires Valid()
      modifies this
      ensures Valid()
      ensures nextId == old(nextId) && clock == old(clock)
      ensures r.Err? <==> StatusRejection(actor, id, status, old(comments)).Some?
      ensures r.Err? ==> Some(r.error) == StatusRejection(actor, id, status, old(comments)) && comments == old(comments)
      ensures r.Ok? ==> r.value == id && id in old(comments) && ParseCommentStatus(status).Some?
                        && comments == old(comments)[id := old(comments)[id].(status := ParseCommentStatus(status).value)]
    {
      var gate := AdminGate(actor);
      if gate.Some? {
        r := Err(gate.value);
        return;
      }
      var st := ParseCommentStatus(status);
      if st.None? {
        r := Err(ValidationFailed);
        return;
      }
      if id !in comments {
        r := Err(NotFound(CommentEntity));
        return;
      }
      StatusChangeKeepsTriplesUnique(comments, id, st.value);
      StoreKeepsValid(comments, nextId, id, comments[id].(status := st.value));
      comments := comments[id := comments[id].(status := st.value)];
      r := Ok(id);
    }
  }
}
