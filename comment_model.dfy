/** The Comment schema of backend/models/Comment.js: a trimmed, bounded
    content, the author and the post, an optional parent, a moderation status,
    and the unique index over (author, post, content). */
module CommentModel {
  import opened Common
  import opened Text

  datatype CommentStatus = Pending | Approved | Rejected

  /** The status enum `['pending', 'approved', 'rejected']`, read from a string. */
  function ParseCommentStatus(s: string): (r: Option<CommentStatus>)
    ensures r == Some(Pending) <==> s == "pending"
    ensures r == Some(Approved) <==> s == "approved"
    ensures r == Some(Rejected) <==> s == "rejected"
  {
    if s == "pending" then Some(Pending)
    else if s == "approved" then Some(Approved)
    else if s == "rejected" then Some(Rejected)
    else None
  }

  function CommentStatusName(st: CommentStatus): (s: string)
    ensures ParseCommentStatus(s) == Some(st)
  {
    match st
    case Pending => "pending"
    case Approved => "approved"
    case Rejected => "rejected"
  }

  /** A comment document; `parentComment` None is the schema's `null`: a root. */
  datatype Comment = Comment(
    content: string,
    author: UserId,
    post: PostId,
    parentComment: Option<CommentId>,
    status: CommentStatus,
    createdAt: nat)

  const ContentMaxLength := 1000

  /** What the validators accept of a document whose content the setter has
      trimmed: present and at most 1000 characters. */
  predicate ContentAccepted(content: string)
  {
    content != [] && |content| <= ContentMaxLength
  }

  /** A stored comment: trimmed content the validators accepted. */
  predicate ValidComment(c: Comment)
  {
    Trimmed(c.content) && ContentAccepted(c.content)
  }

  /** A new document with the schema defaults: status `approved`, and a root
      unless a parent is given. */
  function NewComment(content: string, author: UserId, post: PostId, parent: Option<CommentId>, now: nat): (c: Comment)
    ensures c.status == Approved && c.parentComment == parent && c.createdAt == now
    ensures c.content == Trim(content) && c.author == author && c.post == post
    ensures parent.None? ==> c.parentComment.None?
  {
    Comment(Trim(content), author, post, parent, Approved, now)
  }

  /** A new document is valid exactly when the validators accept its trimmed content. */
  lemma NewCommentValid(content: string, author: UserId, post: PostId, parent: Option<CommentId>, now: nat)
    ensures ValidComment(NewComment(content, author, post, parent, now)) <==> ContentAccepted(Trim(content))
  {
  }

  /** Two comments with the same (author, post, content) key. */
  predicate SameTriple(a: Comment, b: Comment)
  {
    a.author == b.author && a.post == b.post && a.content == b.content
  }

  /** The unique index `{ author: 1, post: 1, content: 1 }`: roots and replies alike. */
  predicate TriplesUnique(comments: map<CommentId, Comment>)
  {
    forall a, b :: a in comments && b in comments && a != b ==> !SameTriple(comments[a], comments[b])
  }

  /** Some stored comment has this (author, post, content) triple
      (`Comment.findOne({ author, post, content })`). */
  predicate TripleTaken(comments: map<CommentId, Comment>, author: UserId, post: PostId, content: string)
  {
    exists k | k in comments :: comments[k].author == author && comments[k].post == post && comments[k].content == content
  }

  /** Some comment other than `self` has the triple of `c`: the index rejects the write. */
  predicate TripleClash(comments: map<CommentId, Comment>, self: CommentId, c: Comment)
  {
    exists k | k in comments :: k != self && SameTriple(comments[k], c)
  }

  /** A write the index lets through keeps the triples unique. */
  lemma WriteKeepsTriplesUnique(comments: map<CommentId, Comment>, id: CommentId, c: Comment)
    requires TriplesUnique(comments)
    requires !TripleClash(comments, id, c)
    ensures TriplesUnique(comments[id := c])
  {
  }

  /** Removing comments never creates a clash. */
  lemma RemoveKeepsTriplesUnique(comments: map<CommentId, Comment>, keep: set<CommentId>)
    requires TriplesUnique(comments)
    ensures TriplesUnique(map k | k in comments && k in keep :: comments[k])
  {
  }

  /** Changing a field outside the triple cannot create a clash. */
  lemma StatusChangeKeepsTriplesUnique(comments: map<CommentId, Comment>, id: CommentId, st: CommentStatus)
    requires TriplesUnique(comments) && id in comments
    ensures TriplesUnique(comments[id := comments[id].(status := st)])
  {
    var m := comments[id := comments[id].(status := st)];
    forall a, b | a in m && b in m && a != b
      ensures !SameTriple(m[a], m[b])
    {
      assert SameTriple(m[a], m[b]) <==> SameTriple(comments[a], comments[b]);
    }
  }
}
