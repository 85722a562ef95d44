/** The comments service: creating, editing and soft-deleting comments and
    replies with the counter bookkeeping of the comment tree, lookup by id,
    and the five-minute statistics cache. The pagination and sort order of
    the listing queries are in Pagination. */
module CommentsService {
  import opened Common
  import opened Records
  import opened Events
  import opened CommentTree
  import Store
  import CommentDto

  const StatsCacheTtl: int := 5 * 60 * 1000

  /** The figures of getCommentStats the model keeps; they come from one SQL
      aggregate over the live comments. */
  datatype CommentStats = CommentStats(
    totalComments: nat,
    totalReplies: nat,
    topCommentId: Option<string>,
    lastCommentAt: Option<int>)

  // ---------------------------------------------------------------------
  // Guards

  /** The checks of createComment, in their order: the author must exist,
      and a truthy parent id must name a live comment. */
  function CreateError(users: map<string, User>, comments: Table, userId: string, parentId: Option<string>): (e: Option<HttpError>)
    ensures e.None? <==>
              userId in users && (Truthy(parentId) ==> parentId.value in comments && !comments[parentId.value].isDeleted)
    ensures userId !in users ==> e == Some(NotFound("User not found"))
    ensures userId in users && e.Some? ==> e == Some(NotFound("Parent comment not found or deleted"))
  {
    if userId !in users then Some(NotFound("User not found"))
    else if Truthy(parentId) && (parentId.value !in comments || comments[parentId.value].isDeleted) then
      Some(NotFound("Parent comment not found or deleted"))
    else None
  }

  datatype Change = Edit | Removal

  /** The checks of updateComment and deleteComment, in their order: the
      comment exists, belongs to the caller, and is not deleted yet. */
  function OwnerError(comments: Table, id: string, userId: string, change: Change): (e: Option<HttpError>)
    ensures e.None? <==> id in comments && comments[id].userId == userId && !comments[id].isDeleted
    ensures id !in comments ==> e == Some(NotFound("Comment not found"))
    ensures id in comments && comments[id].userId != userId ==>
              e.Some? && e.value.Unauthorized?
    ensures id in comments && comments[id].userId == userId && comments[id].isDeleted ==>
              e.Some? && e.value.BadRequest?
  {
    if id !in comments then Some(NotFound("Comment not found"))
    else if comments[id].userId != userId then
      Some(Unauthorized(if change == Edit then "You can only update your own comments"
                        else "You can only delete your own comments"))
    else if comments[id].isDeleted then
      Some(BadRequest(if change == Edit then "Cannot update deleted comment" else "Comment already deleted"))
    else None
  }

  /** handleDatabaseError of this service: unlike the other two services it
      reports a unique violation as a bad request too. */
  function DatabaseError(code: string, detail: string, operation: string): (e: HttpError)
    ensures e.BadRequest?
    ensures code == "23503" ==> e.message == "Invalid reference in " + operation
    ensures code == "23505" ==> e.message == "Duplicate entry in " + operation
    ensures code != "23503" && code != "23505" ==>
              e.message == "Database error in " + operation + ": " + detail
  {
    if code == "23503" then BadRequest("Invalid reference in " + operation)
    else if code == "23505" then BadRequest("Duplicate entry in " + operation)
    else BadRequest("Database error in " + operation + ": " + detail)
  }

  // ---------------------------------------------------------------------
  // The table after each change

  /** Two tables hold the same rows under the same keys with the same ids
      and authors. */
  ghost predicate SameRows(m1: Table, m2: Table) {
    m1.Keys == m2.Keys && forall k :: k in m1 ==> m2[k].id == m1[k].id && m2[k].userId == m1[k].userId
  }

  /** The row createComment saves: a falsy parent id is stored as no parent;
      counters start at zero. */
  function NewComment(id: string, userId: string, text: string, parentId: Option<string>, now: int): Comment {
    Comment(id, userId, if Truthy(parentId) then parentId else None, text, false, 0, 0, None, now, now)
  }

  /** The parent's lastReplyAt set when a reply arrives. */
  function RecordReply(m: Table, p: string, now: int): (r: Table)
    requires p in m
    ensures SameShape(m, r) && SameRows(m, r)
  {
    m[p := m[p].(lastReplyAt := Some(now))]
  }

  lemma BumpKeepsRows(m: Table, rank: map<string, nat>, p: string, delta: int)
    requires Forest(m, rank) && p in m
    ensures SameRows(m, Bump(m, rank, p, delta))
  {
  }

  /** The table after createComment: the new row is stored and, for a reply,
      the counters of the parent and its strict ancestors move up by one
      (Bump) and the parent's lastReplyAt becomes now. */
  function AfterCreate(m: Table, ghost rank: map<string, nat>, c: Comment, now: int): (r: Table)
    requires Forest(m, rank) && c.id !in m && (c.parentId.Some? ==> c.parentId.value in m)
    ensures SameShape(m[c.id := c], r) && SameRows(m[c.id := c], r) && Forest(r, InsertRank(m, rank, c))
  {
    InsertKeepsForest(m, rank, c);
    var m1 := m[c.id := c];
    match c.parentId
    case None => m1
    case Some(p) =>
      var m2 := Bump(m1, InsertRank(m, rank, c), p, 1);
      BumpKeepsRows(m1, InsertRank(m, rank, c), p, 1);
      SameShapeKeepsForest(m1, m2, InsertRank(m, rank, c));
      var r := RecordReply(m2, p, now);
      SameShapeKeepsForest(m2, r, InsertRank(m, rank, c));
      r
  }

  /** What a creation does to the stored rows: the new comment is stored as
      given; for a reply the parent counts one more direct and total reply
      and records the reply time, each strict ancestor of the parent counts
      one more total reply, and every other row is unchanged. */
  lemma CreateMovesCounters(m: Table, rank: map<string, nat>, c: Comment, now: int)
    requires Forest(m, rank) && c.id !in m && (c.parentId.Some? ==> c.parentId.value in m)
    ensures var r := AfterCreate(m, rank, c, now);
            && r[c.id] == c
            && (c.parentId.None? ==> forall k :: k in m ==> r[k] == m[k])
            && (c.parentId.Some? ==>
                  var p := c.parentId.value;
                  var anc := StrictAncestors(m, rank, p);
                  && p !in anc
                  && r[p] == m[p].(replyCount := m[p].replyCount + 1, totalReplies := m[p].totalReplies + 1, lastReplyAt := Some(now))
                  && (forall k :: k in anc ==> r[k] == m[k].(totalReplies := m[k].totalReplies + 1))
                  && (forall k :: k in m && k != p && k !in anc ==> r[k] == m[k]))
  {
    InsertKeepsForest(m, rank, c);
    var m1 := m[c.id := c];
    var r1 := InsertRank(m, rank, c);
    if c.parentId.Some? {
      var p := c.parentId.value;
      var anc := StrictAncestors(m, rank, p);
      assert StrictAncestors(m1, r1, p) == anc;
      assert p !in anc by {
        if p in anc {
          AncestorIsOlder(m, rank, p, p);
        }
      }
      var m2 := Bump(m1, r1, p, 1);
      assert c.id !in anc;
      assert m2[c.id] == c;
      assert m2[p] == m[p].(replyCount := m[p].replyCount + 1, totalReplies := m[p].totalReplies + 1);
    }
  }

  /** The table after deleteComment: the comment is flagged deleted and, for
      a reply, its parent and the parent's strict ancestors stop counting
      it. Under the store invariant a parent id is never empty, so testing
      for its presence is the source's truthiness test. */
  function AfterDelete(m: Table, ghost rank: map<string, nat>, id: string, now: int): (r: Table)
    requires Forest(m, rank) && id in m
    ensures Forest(r, rank) && SameRows(m, r)
    ensures m[id].parentId.Some? ==> m[id].parentId.value in r
    ensures r.Keys == m.Keys && r[id] == m[id].(isDeleted := true, updatedAt := now, replyCount := r[id].replyCount, totalReplies := r[id].totalReplies)
    ensures forall k :: k in m && k != id ==> r[k].parentId == m[k].parentId && r[k].isDeleted == m[k].isDeleted
  {
    var m1 := MarkDeleted(m, id, now);
    MarkDeletedKeepsForest(m, rank, id, now);
    match m[id].parentId
    case None => m1
    case Some(p) =>
      assert ParentLinked(m, rank, id);
      var r := Bump(m1, rank, p, -1);
      SameShapeKeepsForest(m1, r, rank);
      r
  }

  /** A comment is never its own strict ancestor: ancestors have smaller
      ranks. */
  lemma {:induction false} AncestorIsOlder(m: Table, rank: map<string, nat>, id: string, a: string)
    requires Forest(m, rank) && id in m && a in StrictAncestors(m, rank, id)
    ensures a in rank && rank[a] < rank[id]
    decreases rank[id]
  {
    assert ParentLinked(m, rank, id);
    var p := m[id].parentId.value;
    if a != p {
      AncestorIsOlder(m, rank, p, a);
    }
  }

  // ---------------------------------------------------------------------
  // Counter invariant

  /** createComment keeps every stored counter equal to what it counts. */
  lemma CreateKeepsCounters(m: Table, rank: map<string, nat>, c: Comment, now: int)
    requires Forest(m, rank) && Consistent(m, rank)
    requires c.id !in m && (c.parentId.Some? ==> c.parentId.value in m)
    requires !c.isDeleted && c.replyCount == 0 && c.totalReplies == 0
    ensures Forest(AfterCreate(m, rank, c, now), InsertRank(m, rank, c))
    ensures Consistent(AfterCreate(m, rank, c, now), InsertRank(m, rank, c))
  {
    var r1 := InsertRank(m, rank, c);
    var r := AfterCreate(m, rank, c, now);
    match c.parentId
    case None =>
      InsertTopLevelKeepsCounters(m, rank, c);
    case Some(p) =>
      InsertReplyKeepsCounters(m, rank, c, p);
      var m2 := Bump(m[c.id := c], r1, p, 1);
      assert r == m2[p := m2[p].(lastReplyAt := Some(now))];
      SameCountersKeepConsistent(m2, r, r1);
  }

  /** deleteComment keeps every stored counter equal to what it counts. */
  lemma DeleteKeepsCounters(m: Table, rank: map<string, nat>, id: string, now: int)
    requires Forest(m, rank) && Consistent(m, rank)
    requires id in m && !m[id].isDeleted
    ensures Consistent(AfterDelete(m, rank, id, now), rank)
  {
    match m[id].parentId
    case None =>
      DeleteTopLevelKeepsCounters(m, rank, id, now);
    case Some(p) =>
      DeleteReplyKeepsCounters(m, rank, id, p, now);
  }

  /** Deleting a reply right after creating it gives every comment that
      existed before its counters back. */
  lemma DeleteUndoesCreate(m: Table, rank: map<string, nat>, c: Comment, now: int, later: int)
    requires Forest(m, rank) && c.id !in m && c.parentId.Some? && c.parentId.value in m
    ensures var r1 := InsertRank(m, rank, c);
            var after := AfterDelete(AfterCreate(m, rank, c, now), r1, c.id, later);
            && after.Keys == m.Keys + {c.id}
            && forall k :: k in m ==> after[k].replyCount == m[k].replyCount && after[k].totalReplies == m[k].totalReplies
  {
    var p := c.parentId.value;
    var r1 := InsertRank(m, rank, c);
    InsertKeepsForest(m, rank, c);
    var m3 := AfterCreate(m, rank, c, now);
    CreateMovesCounters(m, rank, c, now);
    forall j | j in m
      ensures m3[j].parentId == m[j].parentId
    {
      assert m[c.id := c][j] == m[j];
    }
    AncestorsStable(m, rank, m3, r1, p);
    DeleteMovesCounters(m3, r1, c.id, later);
    CountersBack(m, m3, AfterDelete(m3, r1, c.id, later), p, StrictAncestors(m, rank, p));
  }

  /** Counters raised on a parent and its strict ancestors and then lowered
      on the same comments are back where they were. */
  lemma CountersBack(m: Table, m3: Table, after: Table, p: string, anc: set<string>)
    requires p in m && p !in anc && anc <= m.Keys && m.Keys <= m3.Keys && m3.Keys <= after.Keys
    requires m3[p].replyCount == m[p].replyCount + 1 && m3[p].totalReplies == m[p].totalReplies + 1
    requires forall k :: k in anc ==> m3[k] == m[k].(totalReplies := m[k].totalReplies + 1)
    requires forall k :: k in m && k != p && k !in anc ==> m3[k] == m[k]
    requires after[p].replyCount == m3[p].replyCount - 1 && after[p].totalReplies == m3[p].totalReplies - 1
    requires forall k :: k in anc ==> after[k].replyCount == m3[k].replyCount && after[k].totalReplies == m3[k].totalReplies - 1
    requires forall k :: k in m3 && k != p && k !in anc ==>
               after[k].replyCount == m3[k].replyCount && after[k].totalReplies == m3[k].totalReplies
    ensures forall k :: k in m ==> after[k].replyCount == m[k].replyCount && after[k].totalReplies == m[k].totalReplies
  {
  }

  /** What a deletion does to the counters: for a reply, the parent counts
      one direct and one total reply less, each strict ancestor of the
      parent one total reply less, and every other counter is unchanged. */
  lemma DeleteMovesCounters(m: Table, rank: map<string, nat>, id: string, now: int)
    requires Forest(m, rank) && id in m
    ensures var r := AfterDelete(m, rank, id, now);
            && (m[id].parentId.None? ==> forall k :: k in m ==> r[k].replyCount == m[k].replyCount && r[k].totalReplies == m[k].totalReplies)
            && (m[id].parentId.Some? ==>
                  var p := m[id].parentId.value;
                  var anc := StrictAncestors(m, rank, p);
                  && p in m && p !in anc
                  && r[p].replyCount == m[p].replyCount - 1 && r[p].totalReplies == m[p].totalReplies - 1
                  && (forall k :: k in anc ==> r[k].replyCount == m[k].replyCount && r[k].totalReplies == m[k].totalReplies - 1)
                  && (forall k :: k in m && k != p && k !in anc ==>
                        r[k].replyCount == m[k].replyCount && r[k].totalReplies == m[k].totalReplies))
  {
    if m[id].parentId.Some? {
      var p := m[id].parentId.value;
      assert ParentLinked(m, rank, id);
      var anc := StrictAncestors(m, rank, p);
      assert p !in anc by {
        if p in anc {
          AncestorIsOlder(m, rank, p, p);
        }
      }
      var m1 := MarkDeleted(m, id, now);
      MarkDeletedKeepsForest(m, rank, id, now);
      assert StrictAncestors(m1, rank, p) == anc;
    }
  }

  // ---------------------------------------------------------------------
  // Events

  /** comment.reply_count_updated after a reply is created: the parent's
      counters as read before the update, plus one. */
  function CreatePayload(m: Table, parentId: string): (e: CommentEvent)
    requires parentId in m
  {
    ReplyCountUpdated(parentId, m[parentId].replyCount + 1, m[parentId].totalReplies + 1)
  }

  /** After a creation the payload carries the parent's new stored counters,
      which, when the table was consistent, count its live replies. */
  lemma CreatePayloadIsStored(m: Table, rank: map<string, nat>, c: Comment, now: int)
    requires Forest(m, rank) && Consistent(m, rank)
    requires c.id !in m && c.parentId.Some? && c.parentId.value in m
    requires !c.isDeleted && c.replyCount == 0 && c.totalReplies == 0
    ensures var after := AfterCreate(m, rank, c, now);
            var p := c.parentId.value;
            && CreatePayload(m, p) == ReplyCountUpdated(p, after[p].replyCount, after[p].totalReplies)
            && CreatePayload(m, p).replyCount == |LiveChildren(after, p)|
            && CreatePayload(m, p).totalReplies == |LiveDescendants(after, InsertRank(m, rank, c), p)|
  {
    CreateKeepsCounters(m, rank, c, now);
    assert CountersMatch(AfterCreate(m, rank, c, now), InsertRank(m, rank, c), c.parentId.value);
  }

  /** comment.reply_count_updated after a delete, AS WRITTEN: the event is
      addressed to the parent but carries the deleted comment's own counters
      minus one, floored at zero. */
  function DeletePayloadAsWritten(deleted: Comment): (e: Option<CommentEvent>)
    ensures e.Some? <==> deleted.parentId.Some?
  {
    match deleted.parentId
    case None => None
    case Some(p) => Some(ReplyCountUpdated(p, Max(0, deleted.replyCount - 1), Max(0, deleted.totalReplies - 1)))
  }

  /** comment.reply_count_updated after a delete as the model emits it: the
      parent's counters after the delete. */
  function DeletePayload(after: Table, deleted: Comment): (e: Option<CommentEvent>)
    requires deleted.parentId.Some? ==> deleted.parentId.value in after
    ensures e.Some? <==> deleted.parentId.Some?
  {
    match deleted.parentId
    case None => None
    case Some(p) => Some(ReplyCountUpdated(p, after[p].replyCount, after[p].totalReplies))
  }

  /** After a delete the corrected payload counts the parent's remaining
      live replies. */
  lemma DeletePayloadCountsLiveReplies(m: Table, rank: map<string, nat>, id: string, now: int)
    requires Forest(m, rank) && Consistent(m, rank)
    requires id in m && !m[id].isDeleted && m[id].parentId.Some?
    ensures var after := AfterDelete(m, rank, id, now);
            var p := m[id].parentId.value;
            && p in after
            && DeletePayload(after, m[id]) == Some(ReplyCountUpdated(p, |LiveChildren(after, p)|, |LiveDescendants(after, rank, p)|))
            && |LiveChildren(after, p)| == |LiveChildren(m, p)| - 1
  {
    var p := m[id].parentId.value;
    assert ParentLinked(m, rank, id);
    DeleteKeepsCounters(m, rank, id, now);
    var after := AfterDelete(m, rank, id, now);
    assert CountersMatch(after, rank, p);
    DeleteReplyKeepsCounters(m, rank, id, p, now);
    MarkDeletedLiveSets(m, rank, id, now, p);
    SameShapeSameLive(MarkDeleted(m, id, now), after, rank, p);
    assert id in LiveChildren(m, p);
  }

  /** A thread with two live replies is a consistent forest. */
  lemma TwoRepliesConsistent(m: Table, rank: map<string, nat>)
    requires m == map["t" := Comment("t", "alice", None, "hi", false, 2, 2, None, 0, 0),
                      "a" := Comment("a", "bob", Some("t"), "one", false, 0, 0, None, 0, 0),
                      "b" := Comment("b", "bob", Some("t"), "two", false, 0, 0, None, 0, 0)]
    requires rank == map["t" := 0, "a" := 1, "b" := 1]
    ensures Forest(m, rank) && Consistent(m, rank)
  {
    assert ParentLinked(m, rank, "t") && ParentLinked(m, rank, "a") && ParentLinked(m, rank, "b");
    assert Forest(m, rank);
    assert StrictAncestors(m, rank, "t") == {};
    assert StrictAncestors(m, rank, "a") == {"t"};
    assert StrictAncestors(m, rank, "b") == {"t"};
    assert LiveChildren(m, "t") == {"a", "b"};
    assert LiveChildren(m, "a") == {} && LiveChildren(m, "b") == {};
    assert LiveDescendants(m, rank, "t") == {"a", "b"};
    assert LiveDescendants(m, rank, "a") == {} && LiveDescendants(m, rank, "b") == {};
    assert CountersMatch(m, rank, "t") && CountersMatch(m, rank, "a") && CountersMatch(m, rank, "b");
  }

  /** The payload as written is not the parent's count: a thread with two
      live replies, one of them deleted, is reported with zero replies while
      one remains. */
  lemma DeletePayloadAsWrittenIsStale()
    ensures exists m: Table, rank: map<string, nat>, id: string ::
              && Forest(m, rank) && Consistent(m, rank) && id in m && !m[id].isDeleted && m[id].parentId.Some?
              && DeletePayloadAsWritten(m[id]) != DeletePayload(AfterDelete(m, rank, id, 0), m[id])
  {
    var m := map["t" := Comment("t", "alice", None, "hi", false, 2, 2, None, 0, 0),
                 "a" := Comment("a", "bob", Some("t"), "one", false, 0, 0, None, 0, 0),
                 "b" := Comment("b", "bob", Some("t"), "two", false, 0, 0, None, 0, 0)];
    var rank := map["t" := 0, "a" := 1, "b" := 1];
    TwoRepliesConsistent(m, rank);
    var after := AfterDelete(m, rank, "a", 0);
    assert after["t"].replyCount == 1;
    assert DeletePayloadAsWritten(m["a"]) == Some(ReplyCountUpdated("t", 0, 0));
  }

  // ---------------------------------------------------------------------
  // Responses

  /** A comment as reloaded for a response: with its author and its parent
      (and the parent's author) when those rows exist, without replies. */
  function Load(users: map<string, User>, comments: Table, id: string): (s: CommentDto.CommentSource)
    requires id in comments
    ensures s.comment == comments[id] && !s.repliesLoaded
    ensures s.user.Some? <==> comments[id].userId in users
  {
    var c := comments[id];
    var parent :=
      if c.parentId.Some? && c.parentId.value in comments && comments[c.parentId.value].userId in users then
        Some(CommentDto.ParentSource(comments[c.parentId.value], users[comments[c.parentId.value].userId]))
      else None;
    CommentDto.CommentSource(c, if c.userId in users then Some(users[c.userId]) else None, parent, false, [])
  }

  function Response(users: map<string, User>, comments: Table, id: string): (r: CommentDto.CommentResponse)
    requires id in comments
  {
    CommentDto.ToResponse(Load(users, comments, id))
  }

  /** The stored row the author's commentCount moves by delta in. */
  function CountComment(users: map<string, User>, userId: string, delta: int): (u: map<string, User>)
    ensures u.Keys == users.Keys
    ensures userId in users ==> u[userId] == users[userId].(commentCount := users[userId].commentCount + delta)
    ensures forall k :: k in users && k != userId ==> u[k] == users[k]
  {
    if userId in users then users[userId := users[userId].(commentCount := users[userId].commentCount + delta)]
    else users
  }

  /** A creation keeps every row under its own id and every author stored. */
  lemma CreateKeepsRows(users: map<string, User>, m: Table, rank: map<string, nat>, c: Comment, now: int)
    requires Store.UsersKeyed(users) && Store.CommentsKeyed(users, m) && Forest(m, rank)
    requires c.id !in m && c.id != "" && c.userId in users && (c.parentId.Some? ==> c.parentId.value in m)
    ensures Store.UsersKeyed(CountComment(users, c.userId, 1))
    ensures Store.CommentsKeyed(CountComment(users, c.userId, 1), AfterCreate(m, rank, c, now))
  {
  }

  /** A deletion keeps every row under its own id and every author stored. */
  lemma DeleteKeepsRows(users: map<string, User>, m: Table, rank: map<string, nat>, id: string, now: int, userId: string)
    requires Store.UsersKeyed(users) && Store.CommentsKeyed(users, m) && Forest(m, rank) && id in m
    ensures Store.UsersKeyed(CountComment(users, userId, -1))
    ensures Store.CommentsKeyed(CountComment(users, userId, -1), AfterDelete(m, rank, id, now))
  {
  }

  // ---------------------------------------------------------------------
  // The service

  class CommentsService {
    const db: Store.Database
    var statsCache: Option<Cached<CommentStats>>

    constructor (db: Store.Database)
      ensures this.db == db && statsCache.None?
    {
      this.db := db;
      statsCache := None;
    }

    /** createComment. */
    method CreateComment(text: string, parentId: Option<string>, userId: string, now: int)
      returns (r: Result<CommentDto.CommentResponse>, events: seq<CommentEvent>)
      requires db.Valid()
      modifies this`statsCache, db`users, db`comments, db`rank
      ensures db.Valid() && db.notifications == old(db.notifications)
      ensures var err := CreateError(old(db.users), old(db.comments), userId, parentId);
              err.Some? ==>
                && r == Failure(err.value) && events == []
                && db.users == old(db.users) && db.comments == old(db.comments) && statsCache == old(statsCache)
      ensures var err := CreateError(old(db.users), old(db.comments), userId, parentId);
              err.None? ==>
                && r.Success? && r.value.id !in old(db.comments)
                && var c := NewComment(r.value.id, userId, text, parentId, now);
                && db.comments == AfterCreate(old(db.comments), old(db.rank), c, now)
                && db.users == CountComment(old(db.users), userId, 1)
                && r.value == Response(db.users, db.comments, c.id)
                && statsCache.None?
                && events == [CommentCreated(r.value, parentId)]
                             + (if Truthy(parentId) then [CreatePayload(old(db.comments), parentId.value)] else [])
      ensures Consistent(old(db.comments), old(db.rank)) ==> Consistent(db.comments, db.rank)
    {
      var err := CreateError(db.users, db.comments, userId, parentId);
      if err.Some? {
        return Failure(err.value), [];
      }
      var id := db.NewId();
      var c := NewComment(id, userId, text, parentId, now);
      ghost var rank0 := db.rank;
      if Consistent(db.comments, db.rank) {
        CreateKeepsCounters(db.comments, db.rank, c, now);
      }
      var before := db.comments;
      CreateKeepsRows(db.users, db.comments, db.rank, c, now);
      db.comments := AfterCreate(db.comments, db.rank, c, now);
      db.rank := InsertRank(before, rank0, c);
      db.users := CountComment(db.users, userId, 1);
      statsCache := None;
      var result := Response(db.users, db.comments, id);
      r := Success(result);
      events := [CommentCreated(result, parentId)];
      if Truthy(parentId) {
        events := events + [CreatePayload(before, parentId.value)];
      }
    }

    /** updateComment: edits the text and the update time; the statistics
        cache is left as it is. */
    method UpdateComment(id: string, text: string, userId: string, now: int)
      returns (r: Result<CommentDto.CommentResponse>, events: seq<CommentEvent>)
      requires db.Valid()
      modifies db`comments
      ensures db.Valid()
      ensures var err := OwnerError(old(db.comments), id, userId, Edit);
              if err.Some? then
                r == Failure(err.value) && events == [] && db.comments == old(db.comments)
              else
                && db.comments == old(db.comments)[id := old(db.comments)[id].(text := text, updatedAt := now)]
                && r == Success(Response(db.users, db.comments, id))
                && events == [CommentUpdated(r.value)]
      ensures Consistent(old(db.comments), db.rank) ==> Consistent(db.comments, db.rank)
    {
      var err := OwnerError(db.comments, id, userId, Edit);
      if err.Some? {
        return Failure(err.value), [];
      }
      var before := db.comments;
      db.comments := db.comments[id := db.comments[id].(text := text, updatedAt := now)];
      SameShapeKeepsForest(before, db.comments, db.rank);
      if Consistent(before, db.rank) {
        SameCountersKeepConsistent(before, db.comments, db.rank);
      }
      r := Success(Response(db.users, db.comments, id));
      events := [CommentUpdated(r.value)];
    }

    /** deleteComment: a soft delete by the author. */
    method DeleteComment(id: string, userId: string, now: int)
      returns (err: Option<HttpError>, events: seq<CommentEvent>)
      requires db.Valid()
      modifies this`statsCache, db`users, db`comments
      ensures db.Valid() && db.notifications == old(db.notifications)
      ensures OwnerError(old(db.comments), id, userId, Removal).Some? ==>
                && err == OwnerError(old(db.comments), id, userId, Removal) && events == []
                && db.users == old(db.users) && db.comments == old(db.comments) && statsCache == old(statsCache)
      ensures OwnerError(old(db.comments), id, userId, Removal).None? ==>
                && err.None?
                && db.comments == AfterDelete(old(db.comments), db.rank, id, now)
                && db.users == CountComment(old(db.users), userId, -1)
                && statsCache.None?
                && var deleted := old(db.comments)[id];
                && events == [CommentEvent.CommentDeleted(id, deleted.parentId)]
                             + (if deleted.parentId.Some? then [DeletePayload(db.comments, deleted).value] else [])
      ensures Consistent(old(db.comments), db.rank) ==> Consistent(db.comments, db.rank)
    {
      err := OwnerError(db.comments, id, userId, Removal);
      if err.Some? {
        return err, [];
      }
      var deleted := db.comments[id];
      if Consistent(db.comments, db.rank) {
        DeleteKeepsCounters(db.comments, db.rank, id, now);
      }
      DeleteKeepsRows(db.users, db.comments, db.rank, id, now, userId);
      db.comments := AfterDelete(db.comments, db.rank, id, now);
      db.users := CountComment(db.users, userId, -1);
      statsCache := None;
      events := [CommentEvent.CommentDeleted(id, deleted.parentId)];
      if deleted.parentId.Some? {
        events := events + [DeletePayload(db.comments, deleted).value];
      }
    }

    /** findCommentById: a deleted comment is not found. */
    function FindCommentById(id: string): (r: Result<CommentDto.CommentResponse>)
      reads this, db
      ensures r.Failure? <==> id !in db.comments || db.comments[id].isDeleted
      ensures r.Failure? ==> r.error == NotFound("Comment not found")
      ensures r.Success? ==> r.value.id == db.comments[id].id && r.value.text == db.comments[id].text && !r.value.isDeleted
      ensures r.Success? && db.comments[id].userId in db.users ==>
                r.value.user.Some? && r.value.user.value.username == db.users[db.comments[id].userId].username
    {
      if id !in db.comments || db.comments[id].isDeleted then Failure(NotFound("Comment not found"))
      else Success(Response(db.users, db.comments, id))
    }

    /** The cache side of getCommentStats: a fresh entry is served as it
        is; otherwise the figures computed from the table (a parameter here)
        are stored with the current time. */
    method GetCommentStats(now: int, computed: CommentStats) returns (s: CommentStats)
      modifies this`statsCache
      ensures var hit := CacheHit(old(statsCache), now, StatsCacheTtl);
              if hit.Some? then s == hit.value && statsCache == old(statsCache)
              else s == computed && statsCache == Some(Cached(computed, now))
    {
      var hit := CacheHit(statsCache, now, StatsCacheTtl);
      if hit.Some? {
        return hit.value;
      }
      s := computed;
      statsCache := Some(Cached(computed, now));
    }
  }

  /** Once a comment is deleted, a second delete and an edit are refused as
      bad requests while its author still passes the ownership check. */
  lemma DeletedStaysDeleted(m: Table, rank: map<string, nat>, id: string, userId: string, now: int)
    requires Forest(m, rank) && id in m && OwnerError(m, id, userId, Removal).None?
    ensures var after := AfterDelete(m, rank, id, now);
            && OwnerError(after, id, userId, Removal) == Some(BadRequest("Comment already deleted"))
            && OwnerError(after, id, userId, Edit) == Some(BadRequest("Cannot update deleted comment"))
  {
  }
}
