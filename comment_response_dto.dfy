/** The response shape of a comment: the per-field transforms applied when a
    loaded comment row is turned into a CommentResponseDto. Timestamps are
    passed through unchanged. */
module CommentDto {
  import opened Common
  import opened Records

  /** A parent comment as loaded, always with its author. */
  datatype ParentSource = ParentSource(comment: Comment, user: User)

  /** A comment as loaded with its relations: the author when it was joined,
      the parent when the comment has one, and the replies when that relation
      was loaded (repliesLoaded false is the absent relation). */
  datatype CommentSource = CommentSource(
    comment: Comment,
    user: Option<User>,
    parent: Option<ParentSource>,
    repliesLoaded: bool,
    replies: seq<CommentSource>)

  /** The author fields a response exposes. */
  datatype UserView = UserView(id: string, username: string, commentCount: int)

  datatype ParentUser = ParentUser(id: string, username: string)

  datatype ParentComment = ParentComment(id: string, text: string, user: ParentUser, createdAt: int)

  datatype CommentResponse = CommentResponse(
    id: string,
    text: string,
    createdAt: int,
    updatedAt: int,
    isDeleted: bool,
    replyCount: int,
    totalReplies: int,
    lastReplyAt: Option<int>,
    user: Option<UserView>,
    parent: Option<ParentComment>,
    replies: seq<CommentResponse>)

  const DeletedText := "[deleted]"

  /** The text a reader sees: a deleted comment's text is masked. */
  function ResponseText(c: Comment): (t: string)
    ensures c.isDeleted ==> t == DeletedText
    ensures !c.isDeleted ==> t == c.text
  {
    if c.isDeleted then DeletedText else c.text
  }

  /** The author as the transform writes it: the loaded user row itself,
      every column included, unless the comment is deleted. */
  function ResponseUserAsWritten(s: CommentSource): (u: Option<User>)
    ensures s.comment.isDeleted ==> u.None?
    ensures !s.comment.isDeleted ==> u == s.user
  {
    if s.comment.isDeleted then None else s.user
  }

  /** The author exposed only through the fields the user view declares. */
  function ResponseUser(s: CommentSource): (u: Option<UserView>)
    ensures u.Some? <==> !s.comment.isDeleted && s.user.Some?
    ensures u.Some? ==> u.value.id == s.user.value.id && u.value.username == s.user.value.username
                        && u.value.commentCount == s.user.value.commentCount
  {
    if s.comment.isDeleted then None
    else match s.user
      case None => None
      case Some(user) => Some(UserView(user.id, user.username, user.commentCount))
  }

  /** The answer the author transform gives can carry the author's password
      hash: a live comment whose author row was joined returns that row. */
  lemma AuthorTransformLeaksPasswordHash()
    ensures exists s: CommentSource ::
      ResponseUserAsWritten(s).Some? && ResponseUserAsWritten(s).value.passwordHash == "$2b$10$hash"
  {
    var alice := User("u1", "alice", "$2b$10$hash", 1, 0, 0, 0);
    var c := Comment("c1", "u1", None, "hello", false, 0, 0, None, 0, 0);
    var s := CommentSource(c, Some(alice), None, false, []);
    assert ResponseUserAsWritten(s) == Some(alice);
  }

  /** The parent summary: its text previewed to 100 UTF-16 code units and its
      author reduced to id and username. */
  function ParentSummary(p: ParentSource): (r: ParentComment)
    ensures r.id == p.comment.id && r.createdAt == p.comment.createdAt
    ensures r.user == ParentUser(p.user.id, p.user.username)
    ensures |r.text| <= 103
    ensures Utf16Length(p.comment.text) <= 100 ==> r.text == p.comment.text
    ensures Utf16Length(p.comment.text) > 100 ==> IsCutPreview(p.comment.text, r.text)
  {
    PreviewShape(p.comment.text);
    ParentComment(p.comment.id, Preview(p.comment.text), ParentUser(p.user.id, p.user.username), p.comment.createdAt)
  }

  /** A loaded comment and its loaded replies, turned into a response tree. */
  function ToResponse(s: CommentSource): (r: CommentResponse)
    ensures r.id == s.comment.id && r.isDeleted == s.comment.isDeleted
    ensures r.parent.Some? <==> s.parent.Some?
    ensures !s.repliesLoaded ==> r.replies == []
    ensures s.repliesLoaded ==> |r.replies| == |s.replies|
    decreases s
  {
    var c := s.comment;
    CommentResponse(
      c.id, ResponseText(c), c.createdAt, c.updatedAt, c.isDeleted, c.replyCount, c.totalReplies,
      c.lastReplyAt, ResponseUser(s),
      match s.parent { case None => None case Some(p) => Some(ParentSummary(p)) },
      if s.repliesLoaded then seq(|s.replies|, i requires 0 <= i < |s.replies| => ToResponse(s.replies[i]))
      else [])
  }

  /** Every deleted comment anywhere in a response tree shows the masked text
      and no author. */
  predicate Masked(r: CommentResponse)
    decreases r
  {
    && (r.isDeleted ==> r.text == DeletedText && r.user.None?)
    && (forall i :: 0 <= i < |r.replies| ==> Masked(r.replies[i]))
  }

  /** A response tree mirrors its source: the same comments in the same
      places, every live comment with its own text and counters. */
  predicate Mirrors(s: CommentSource, r: CommentResponse)
    decreases s
  {
    && r.id == s.comment.id
    && r.isDeleted == s.comment.isDeleted
    && (!s.comment.isDeleted ==> r.text == s.comment.text)
    && r.replyCount == s.comment.replyCount
    && r.totalReplies == s.comment.totalReplies
    && |r.replies| == (if s.repliesLoaded then |s.replies| else 0)
    && (s.repliesLoaded ==> forall i :: 0 <= i < |s.replies| ==> Mirrors(s.replies[i], r.replies[i]))
  }

  lemma {:induction false} ResponsesAreMasked(s: CommentSource)
    ensures Masked(ToResponse(s))
    decreases s
  {
    var r := ToResponse(s);
    forall i | 0 <= i < |r.replies|
      ensures Masked(r.replies[i])
    {
      ResponsesAreMasked(s.replies[i]);
    }
  }

  lemma {:induction false} ResponseMirrorsSource(s: CommentSource)
    ensures Mirrors(s, ToResponse(s))
    decreases s
  {
    if s.repliesLoaded {
      var r := ToResponse(s);
      forall i | 0 <= i < |s.replies|
        ensures Mirrors(s.replies[i], r.replies[i])
      {
        ResponseMirrorsSource(s.replies[i]);
      }
    }
  }
}
