/** The notification lifecycle over the notification table: creation with its
    validation order and its five-minute duplicate merge, the reply and
    mention notifications built from comments, read/unread updates, the
    sequential bulk operations, deletion, the unread count, the per-user
    summary cache and the mapping of database error codes. */
module Notifications {
  import opened Common
  import opened Records
  import Store
  import NotificationDto
  import opened Events

  type Table = Store.NotificationTable

  /** A cached summary is served for two minutes. */
  const StatsCacheTtl := 2 * 60 * 1000

  /** A notification created in the last five minutes absorbs a duplicate. */
  const DuplicateWindow := 5 * 60 * 1000

  /** A creation request: the recipient, the type, the title and the
      message are required; the rest is optional. */
  datatype CreateRequest = CreateRequest(
    recipientId: string,
    notificationType: NotificationType,
    title: string,
    message: string,
    fromUserId: Option<string>,
    relatedCommentId: Option<string>,
    actionUrl: Option<string>,
    priority: Option<Priority>,
    metadata: Option<map<string, string>>)

  /** The per-user summary; its figures come from SQL aggregates, which are
      not part of this model. */
  datatype Summary = Summary(totalCount: nat, unreadCount: nat)

  /** The outcome of a bulk request: the table, and the count and message
      of the last step that ran. */
  datatype BulkOutcome = BulkOutcome(table: Table, affected: nat, message: string)

  // ---------------------------------------------------------------------
  // Creation

  /** The checks of createNotification, in order: the recipient exists; a
      truthy sender exists and is not the recipient; a truthy related comment
      exists. */
  function CreateError(users: map<string, User>, comments: map<string, Comment>, dto: CreateRequest): (e: Option<HttpError>)
    ensures e.None? <==>
              && dto.recipientId in users
              && (Truthy(dto.fromUserId) ==> dto.fromUserId.value in users && dto.fromUserId.value != dto.recipientId)
              && (Truthy(dto.relatedCommentId) ==> dto.relatedCommentId.value in comments)
    ensures dto.recipientId !in users ==> e == Some(NotFound("Recipient user not found"))
    ensures e == Some(NotFound("From user not found")) <==>
              dto.recipientId in users && Truthy(dto.fromUserId) && dto.fromUserId.value !in users
    ensures e == Some(BadRequest("Cannot create notification to yourself")) <==>
              dto.recipientId in users && Truthy(dto.fromUserId) && dto.fromUserId.value in users
              && dto.fromUserId.value == dto.recipientId
    ensures e == Some(NotFound("Related comment not found")) <==>
              && dto.recipientId in users
              && (Truthy(dto.fromUserId) ==> dto.fromUserId.value in users && dto.fromUserId.value != dto.recipientId)
              && Truthy(dto.relatedCommentId) && dto.relatedCommentId.value !in comments
  {
    if dto.recipientId !in users then Some(NotFound("Recipient user not found"))
    else if Truthy(dto.fromUserId) && dto.fromUserId.value !in users then Some(NotFound("From user not found"))
    else if Truthy(dto.fromUserId) && dto.fromUserId.value == dto.recipientId then
      Some(BadRequest("Cannot create notification to yourself"))
    else if Truthy(dto.relatedCommentId) && dto.relatedCommentId.value !in comments then
      Some(NotFound("Related comment not found"))
    else None
  }

  /** SQL `=` on a nullable column: a missing value on either side never
      matches. */
  predicate SqlEq(a: Option<string>, b: Option<string>) {
    a.Some? && b.Some? && a.value == b.value
  }

  /** The duplicate query: same recipient, type, sender and related comment,
      created at most five minutes ago. */
  predicate IsDuplicate(n: Notification, dto: CreateRequest, now: int) {
    && n.recipientId == dto.recipientId
    && n.notificationType == dto.notificationType
    && SqlEq(n.fromUserId, dto.fromUserId)
    && SqlEq(n.relatedCommentId, dto.relatedCommentId)
    && n.createdAt >= now - DuplicateWindow
  }

  function Duplicates(t: Table, dto: CreateRequest, now: int): set<string> {
    set k | k in t && IsDuplicate(t[k], dto, now)
  }

  /** A request without a sender or without a related comment is never taken
      for a duplicate, however recent a similar notification is. */
  lemma MissingKeyNeverMerges(t: Table, dto: CreateRequest, now: int)
    requires dto.fromUserId.None? || dto.relatedCommentId.None?
    ensures Duplicates(t, dto, now) == {}
  {
  }

  /** updateExistingNotification: the duplicate takes the new title and
      message, becomes unread and recent again, keeps its priority unless a
      new one is given and merges the metadata with the new keys winning. */
  function Merge(existing: Notification, dto: CreateRequest, now: int): (n: Notification)
    ensures n.id == existing.id && n.recipientId == existing.recipientId
    ensures n.notificationType == existing.notificationType && n.fromUserId == existing.fromUserId
    ensures n.relatedCommentId == existing.relatedCommentId && n.actionUrl == existing.actionUrl
    ensures n.title == dto.title && n.message == dto.message
    ensures !n.isRead && n.readAt.None? && n.createdAt == now
    ensures dto.priority.None? ==> n.priority == existing.priority
    ensures dto.priority.Some? ==> n.priority == dto.priority.value
    ensures forall k :: k in n.metadata <==> k in existing.metadata || (dto.metadata.Some? && k in dto.metadata.value)
    ensures forall k :: k in n.metadata ==>
              n.metadata[k] == (if dto.metadata.Some? && k in dto.metadata.value then dto.metadata.value[k]
                                else existing.metadata[k])
  {
    existing.(title := dto.title, message := dto.message, isRead := false, readAt := None,
              createdAt := now, priority := dto.priority.GetOr(existing.priority),
              metadata := existing.metadata + dto.metadata.GetOr(map[]))
  }

  /** The row a fresh insert stores: priority defaults to medium, metadata
      to empty, and the notification starts unread. */
  function Inserted(id: string, dto: CreateRequest, now: int): (n: Notification)
    ensures n.id == id && n.recipientId == dto.recipientId && n.notificationType == dto.notificationType
    ensures n.fromUserId == dto.fromUserId && n.relatedCommentId == dto.relatedCommentId
    ensures n.title == dto.title && n.message == dto.message && n.actionUrl == dto.actionUrl
    ensures dto.priority.None? ==> n.priority == Medium
    ensures dto.metadata.None? ==> n.metadata == map[]
    ensures !n.isRead && n.readAt.None? && n.createdAt == now
  {
    Notification(id, dto.recipientId, dto.notificationType, dto.title, dto.message, dto.fromUserId,
                 dto.relatedCommentId, dto.actionUrl, dto.priority.GetOr(Medium),
                 dto.metadata.GetOr(map[]), false, None, now)
  }

  /** A notification that carries a request: to its recipient, of its type,
      from its sender about its comment, with its text, unread and dated now. */
  predicate Delivers(n: Notification, dto: CreateRequest, now: int) {
    && n.recipientId == dto.recipientId && n.notificationType == dto.notificationType
    && n.title == dto.title && n.message == dto.message
    && !n.isRead && n.createdAt == now
    && (Truthy(dto.fromUserId) ==> n.fromUserId == dto.fromUserId)
    && (Truthy(dto.relatedCommentId) ==> n.relatedCommentId == dto.relatedCommentId)
  }

  /** A left join on a nullable reference: the referenced row, or null when
      the reference is missing or names no row. */
  function Join<T>(rows: map<string, T>, ref: Option<string>): (r: Option<T>)
    ensures r.Some? <==> ref.Some? && ref.value in rows
    ensures r.Some? ==> r.value == rows[ref.value]
  {
    if ref.Some? && ref.value in rows then Some(rows[ref.value]) else None
  }

  /** The row as the service reloads it before emitting an event: the
      sender and the related comment joined, and the recipient too when
      `withRecipient` (on creation). */
  function WithRelations(users: map<string, User>, comments: map<string, Comment>, n: Notification, withRecipient: bool): (l: LoadedNotification)
    ensures l.row == n
    ensures l.recipient.Some? <==> withRecipient && n.recipientId in users
    ensures l.recipient.Some? ==> l.recipient.value == users[n.recipientId]
    ensures l.fromUser == Join(users, n.fromUserId)
    ensures l.relatedComment == Join(comments, n.relatedCommentId)
  {
    LoadedNotification(n, if withRecipient then Join(users, Some(n.recipientId)) else None,
                       Join(users, n.fromUserId), Join(comments, n.relatedCommentId))
  }

  /** Some row of the table delivers the request. */
  ghost predicate Delivered(t: Table, dto: CreateRequest, now: int) {
    exists k :: k in t && Delivers(t[k], dto, now)
  }

  /** A delivery survives a change that keeps every row of other recipients
      than u, when the request is for someone else. */
  lemma DeliveredKept(t: Table, t': Table, dto: CreateRequest, now: int, u: string)
    requires Delivered(t, dto, now) && dto.recipientId != u
    requires forall k :: k in t && t[k].recipientId != u ==> k in t' && t'[k] == t[k]
    ensures Delivered(t', dto, now)
  {
    var k :| k in t && Delivers(t[k], dto, now);
    assert k in t' && Delivers(t'[k], dto, now);
  }

  /** Both ways of creating deliver the request: the merged duplicate and the
      fresh row. A merged duplicate is again a duplicate of the request. */
  lemma BothPathsDeliver(existing: Notification, dto: CreateRequest, id: string, now: int)
    requires IsDuplicate(existing, dto, now)
    ensures Delivers(Merge(existing, dto, now), dto, now)
    ensures IsDuplicate(Merge(existing, dto, now), dto, now)
    ensures Delivers(Inserted(id, dto, now), dto, now)
  {
  }

  // ---------------------------------------------------------------------
  // Reply and mention notifications

  /** The quoted form of a comment text used in notification messages. */
  function Quote(text: string): (q: string)
    ensures 2 <= |q| <= 105 && q[0] == '"' && q[|q| - 1] == '"'
    ensures Utf16Length(text) <= 100 ==> q[1..|q| - 1] == text
    ensures Utf16Length(text) > 100 ==> IsCutPreview(text, q[1..|q| - 1])
  {
    PreviewShape(text);
    "\"" + Preview(text) + "\""
  }

  /** The reply notification for a reply to a comment, if there is one to
      send: both comments and both authors must exist and the authors must
      differ. */
  function ReplyRequest(users: map<string, User>, comments: map<string, Comment>, commentId: string, replyId: string): (req: Option<CreateRequest>)
    ensures req.Some? <==>
              && commentId in comments && comments[commentId].userId in users
              && replyId in comments && comments[replyId].userId in users
              && comments[commentId].userId != comments[replyId].userId
    ensures req.Some? ==>
              var author := users[comments[replyId].userId];
              && req.value.recipientId == comments[commentId].userId
              && req.value.notificationType == Reply
              && req.value.fromUserId == Some(comments[replyId].userId)
              && req.value.relatedCommentId == Some(replyId)
              && req.value.title == "New reply from " + author.username
              && req.value.message == author.username + " replied to your comment: " + Quote(comments[replyId].text)
              && req.value.actionUrl == Some("/comments/" + commentId + "#reply-" + replyId)
              && req.value.priority == Some(Medium)
  {
    if commentId !in comments || comments[commentId].userId !in users then None
    else if replyId !in comments || comments[replyId].userId !in users then None
    else
      var original := comments[commentId];
      var reply := comments[replyId];
      if original.userId == reply.userId then None
      else
        var name := users[reply.userId].username;
        Some(CreateRequest(
          original.userId, Reply, "New reply from " + name,
          name + " replied to your comment: " + Quote(reply.text),
          Some(reply.userId), Some(replyId), Some("/comments/" + commentId + "#reply-" + replyId),
          Some(Medium),
          Some(map["originalCommentId" := commentId, "replyId" := replyId, "type" := "comment_reply"])))
  }

  /** The users a comment mentions: those whose username is listed, except
      the comment's author. */
  function MentionRecipients(users: map<string, User>, authorId: string, usernames: seq<string>): (r: set<string>)
    ensures r <= users.Keys && authorId !in r
    ensures forall k :: k in users && users[k].username in usernames && k != authorId ==> k in r
    ensures forall k :: k in r ==> users[k].username in usernames
  {
    set k | k in users && users[k].username in usernames && k != authorId
  }

  /** The mention notification of one recipient. */
  function MentionRequest(comment: Comment, commentId: string, author: User, recipient: User): (req: CreateRequest)
    ensures req.recipientId == recipient.id && req.notificationType == Mention
    ensures req.fromUserId == Some(comment.userId) && req.relatedCommentId == Some(commentId)
    ensures req.title == "You were mentioned by " + author.username
    ensures req.message == author.username + " mentioned you in a comment: " + Quote(comment.text)
    ensures req.actionUrl == Some("/comments/" + commentId) && req.priority == Some(High)
  {
    CreateRequest(
      recipient.id, Mention, "You were mentioned by " + author.username,
      author.username + " mentioned you in a comment: " + Quote(comment.text),
      Some(comment.userId), Some(commentId), Some("/comments/" + commentId), Some(High),
      Some(map["mentionType" := "username", "commentId" := commentId, "mentionedUsername" := recipient.username]))
  }

  /** The recipients whose mention request finds no recent duplicate in the
      table: creating it inserts a row rather than merging into one. */
  function FreshMentions(t: Table, users: map<string, User>, c: Comment, commentId: string, author: User,
                         recipients: set<string>, now: int): (inserting: set<string>)
    ensures inserting <= recipients
    ensures forall u :: u in recipients && u in users ==>
              (u in inserting <==> Duplicates(t, MentionRequest(c, commentId, author, users[u]), now) == {})
  {
    set u | u in recipients && u in users && Duplicates(t, MentionRequest(c, commentId, author, users[u]), now) == {}
  }

  /** t' keeps every row of t whose recipient is outside `to`, and holds no
      other rows of those recipients. */
  ghost predicate KeptOutside(t: Table, t': Table, to: set<string>) {
    && (forall k :: k in t && t[k].recipientId !in to ==> k in t' && t'[k] == t[k])
    && (forall k :: k in t' && t'[k].recipientId !in to ==> k in t && t'[k] == t[k])
  }

  /** Two changes, the second touching only u's rows, touch only the rows
      of `done` and u. */
  lemma KeptOutsideGrows(t0: Table, t: Table, t': Table, done: set<string>, u: string)
    requires KeptOutside(t0, t, done) && KeptOutside(t, t', {u})
    ensures KeptOutside(t0, t', done + {u})
  {
  }

  /** Every recipient in `to` has its mention delivered by some row of t. */
  ghost predicate MentionsDelivered(t: Table, users: map<string, User>, to: set<string>,
                                    c: Comment, commentId: string, author: User, now: int)
  {
    forall u :: u in to ==> u in users && Delivered(t, MentionRequest(c, commentId, author, users[u]), now)
  }

  /** Notifying one more recipient, touching only that recipient's rows,
      keeps the earlier deliveries and extends both facts to it. */
  lemma MentionStep(t0: Table, t: Table, t': Table, users: map<string, User>, done: set<string>, u: string,
                    c: Comment, commentId: string, author: User, now: int)
    requires forall k :: k in users ==> users[k].id == k
    requires KeptOutside(t0, t, done) && MentionsDelivered(t, users, done, c, commentId, author, now)
    requires u !in done && u in users
    requires KeptOutside(t, t', {u}) && Delivered(t', MentionRequest(c, commentId, author, users[u]), now)
    ensures KeptOutside(t0, t', done + {u}) && MentionsDelivered(t', users, done + {u}, c, commentId, author, now)
  {
    KeptOutsideGrows(t0, t, t', done, u);
    forall v | v in done
      ensures Delivered(t', MentionRequest(c, commentId, author, users[v]), now)
    {
      DeliveredKept(t, t', MentionRequest(c, commentId, author, users[v]), now, u);
    }
  }

  /** Moving u from the pending to the handled recipients of a batch. */
  lemma MoveToDone(all: set<string>, pending: set<string>, done: set<string>, u: string)
    requires pending <= all && done == all - pending && u in pending
    ensures pending - {u} <= all && done + {u} == all - (pending - {u}) && u !in done
  {
  }

  /** Replacing one row touches only the rows of its recipient. */
  lemma ReplaceKeepsOthers(t: Table, n: Notification)
    requires n.id in t ==> t[n.id].recipientId == n.recipientId
    ensures KeptOutside(t, t[n.id := n], {n.recipientId})
  {
  }

  /** The cache one recipient later: cleared for it only when its request
      was inserted. */
  lemma CacheStep<V>(cache0: map<string, V>, before: map<string, V>, after: map<string, V>,
                     inserting: set<string>, done: set<string>, u: string)
    requires before == cache0 - inserting * done
    requires u in inserting ==> after == before - {u}
    requires u !in inserting ==> after == before
    ensures after == cache0 - inserting * (done + {u})
  {
    if u in inserting {
      assert inserting * done + {u} == inserting * (done + {u});
    } else {
      assert inserting * done == inserting * (done + {u});
    }
  }

  /** The events hold exactly one notification.created per recipient in
      `to`, each carrying a row that delivers that recipient's mention. */
  ghost predicate OneCreatedEach(events: seq<NotificationEvent>, to: set<string>, users: map<string, User>,
                                 c: Comment, commentId: string, author: User, now: int)
  {
    && (set i | 0 <= i < |events| :: events[i].recipientId) == to
    && (forall i, j :: 0 <= i < j < |events| ==> events[i].recipientId != events[j].recipientId)
    && (forall i :: 0 <= i < |events| ==>
          && events[i].NotificationCreated? && events[i].recipientId in users
          && Delivers(events[i].notification.row, MentionRequest(c, commentId, author, users[events[i].recipientId]), now))
  }

  /** One more recipient's creation event extends the events. */
  lemma OneCreatedEachExtend(events: seq<NotificationEvent>, to: set<string>, users: map<string, User>,
                             c: Comment, commentId: string, author: User, now: int, l: LoadedNotification, u: string)
    requires OneCreatedEach(events, to, users, c, commentId, author, now)
    requires u !in to && u in users && Delivers(l.row, MentionRequest(c, commentId, author, users[u]), now)
    ensures OneCreatedEach(events + [NotificationCreated(l, u)], to + {u}, users, c, commentId, author, now)
  {
    var events' := events + [NotificationCreated(l, u)];
    assert forall i :: 0 <= i < |events| ==> events'[i] == events[i];
    assert (set i | 0 <= i < |events'| :: events'[i].recipientId)
        == (set i | 0 <= i < |events| :: events[i].recipientId) + {u} by {
      assert events'[|events|].recipientId == u;
    }
  }

  /** The events one recipient later: a creation event for it exactly when
      its request was inserted. */
  lemma EventsStep(events: seq<NotificationEvent>, e: seq<NotificationEvent>, inserting: set<string>, done: set<string>,
                   users: map<string, User>, c: Comment, commentId: string, author: User, now: int,
                   l: LoadedNotification, u: string)
    requires OneCreatedEach(events, inserting * done, users, c, commentId, author, now)
    requires u !in done && u in users
    requires u in inserting ==>
               e == [NotificationCreated(l, u)] && Delivers(l.row, MentionRequest(c, commentId, author, users[u]), now)
    requires u !in inserting ==> e == []
    ensures OneCreatedEach(events + e, inserting * (done + {u}), users, c, commentId, author, now)
  {
    if u in inserting {
      assert inserting * done + {u} == inserting * (done + {u});
      OneCreatedEachExtend(events, inserting * done, users, c, commentId, author, now, l, u);
    } else {
      assert events + e == events;
      assert inserting * done == inserting * (done + {u});
    }
  }

  /** What createMentionNotification has done after handling the recipients
      in `done`, starting from table t0 and cache cache0: their mentions are
      delivered, no other recipient's rows changed, and exactly those of them
      whose request was inserted lost their cached statistics and got one
      creation event each. */
  ghost predicate BatchSoFar<V>(t0: Table, t: Table, cache0: map<string, V>, cache: map<string, V>,
                                events: seq<NotificationEvent>, inserting: set<string>, done: set<string>,
                                users: map<string, User>, c: Comment, commentId: string, author: User, now: int)
  {
    && KeptOutside(t0, t, done)
    && MentionsDelivered(t, users, done, c, commentId, author, now)
    && cache == cache0 - inserting * done
    && OneCreatedEach(events, inserting * done, users, c, commentId, author, now)
  }

  /** Creating one more recipient's mention, by merging (no event, cache
      kept) or inserting (one creation event, its cache cleared), extends
      what the batch has done to that recipient. */
  lemma BatchStep<V>(t0: Table, t: Table, t': Table, cache0: map<string, V>, cache: map<string, V>, cache': map<string, V>,
                     events: seq<NotificationEvent>, e: seq<NotificationEvent>, inserting: set<string>, done: set<string>,
                     users: map<string, User>, c: Comment, commentId: string, author: User, now: int,
                     n: Notification, l: LoadedNotification, u: string)
    requires forall k :: k in users ==> users[k].id == k
    requires BatchSoFar(t0, t, cache0, cache, events, inserting, done, users, c, commentId, author, now)
    requires u !in done && u in users
    requires u in inserting <==> Duplicates(t0, MentionRequest(c, commentId, author, users[u]), now) == {}
    requires t' == t[n.id := n] && n.recipientId == u
    requires forall k :: k in t && t[k].recipientId != u ==> k in t' && t'[k] == t[k]
    requires Delivers(n, MentionRequest(c, commentId, author, users[u]), now)
    requires Duplicates(t, MentionRequest(c, commentId, author, users[u]), now) == {} ==>
               e == [NotificationCreated(l, u)] && cache' == cache - {u}
    requires Duplicates(t, MentionRequest(c, commentId, author, users[u]), now) != {} ==> e == [] && cache' == cache
    requires l.row == n
    ensures BatchSoFar(t0, t', cache0, cache', events + e, inserting, done + {u}, users, c, commentId, author, now)
  {
    DuplicatesOfRecipient(t0, t, MentionRequest(c, commentId, author, users[u]), now);
    ReplaceKeepsOthers(t, n);
    assert n.id in t' && t'[n.id] == n;
    MentionStep(t0, t, t', users, done, u, c, commentId, author, now);
    CacheStep(cache0, cache, cache', inserting, done, u);
    EventsStep(events, e, inserting, done, users, c, commentId, author, now, l, u);
  }

  /** Before the first recipient nothing has been done. */
  lemma BatchStarts<V>(t: Table, cache: map<string, V>, inserting: set<string>, users: map<string, User>,
                       c: Comment, commentId: string, author: User, now: int)
    ensures BatchSoFar(t, t, cache, cache, [], inserting, {}, users, c, commentId, author, now)
  {
    assert inserting * {} == {};
    var none: seq<NotificationEvent> := [];
    assert (set i | 0 <= i < |none| :: none[i].recipientId) == {};
  }

  /** The duplicates of a request depend only on its recipient's rows. */
  lemma DuplicatesOfRecipient(t: Table, t': Table, dto: CreateRequest, now: int)
    requires forall k :: k in t && t[k].recipientId == dto.recipientId ==> k in t' && t'[k] == t[k]
    requires forall k :: k in t' && t'[k].recipientId == dto.recipientId ==> k in t && t[k] == t'[k]
    ensures Duplicates(t, dto, now) == Duplicates(t', dto, now)
  {
  }

  /** Every reply and mention notification the service builds passes the
      creation checks, so none of them is refused. */
  lemma GeneratedRequestsAreValid(users: map<string, User>, comments: map<string, Comment>, commentId: string, replyId: string, recipient: string)
    requires forall k :: k in users ==> users[k].id == k
    ensures ReplyRequest(users, comments, commentId, replyId).Some? ==>
              CreateError(users, comments, ReplyRequest(users, comments, commentId, replyId).value).None?
    ensures commentId in comments && comments[commentId].userId in users && recipient in users
            && recipient != comments[commentId].userId ==>
              CreateError(users, comments, MentionRequest(comments[commentId], commentId,
                          users[comments[commentId].userId], users[recipient])).None?
  {
  }

  // ---------------------------------------------------------------------
  // Reading state

  /** isRead true exactly when readAt is set: every write of the service
      keeps the two together. */
  predicate ReadStamped(t: Table) {
    forall k :: k in t ==> (t[k].isRead <==> t[k].readAt.Some?)
  }

  /** updateNotification's change for a given flag: true stamps readAt,
      false clears it. */
  function ApplyRead(n: Notification, isRead: bool, now: int): (m: Notification)
    ensures m.isRead == isRead
    ensures isRead ==> m.readAt == Some(now)
    ensures !isRead ==> m.readAt.None?
    ensures m.(isRead := n.isRead, readAt := n.readAt) == n
  {
    n.(isRead := isRead, readAt := if isRead then Some(now) else None)
  }

  /** Marking read keeps the stamps consistent; marking one of the caller's
      unread notifications read lowers their unread count by one. */
  lemma ApplyReadEffects(t: Table, id: string, isRead: bool, now: int)
    requires id in t
    ensures ReadStamped(t) ==> ReadStamped(t[id := ApplyRead(t[id], isRead, now)])
    ensures isRead && !t[id].isRead ==>
              Store.UnreadCount(t[id := ApplyRead(t[id], isRead, now)], t[id].recipientId)
              == Store.UnreadCount(t, t[id].recipientId) - 1
  {
    if isRead && !t[id].isRead {
      Store.MarkReadLowersUnread(t, id, now, t[id].recipientId);
    }
  }

  // ---------------------------------------------------------------------
  // Bulk operations

  predicate UnreadOf(n: Notification, userId: string) { n.recipientId == userId && !n.isRead }

  predicate ReadOf(n: Notification, userId: string) { n.recipientId == userId && n.isRead }

  /** The expiry test of the bulk deletion: strictly older than thirty days. */
  predicate ExpiredOf(n: Notification, userId: string, now: int) {
    n.recipientId == userId && n.createdAt < now - NotificationDto.ExpiryMs
  }

  predicate SelectedOf(n: Notification, userId: string, ids: seq<string>) {
    n.recipientId == userId && n.id in ids
  }

  function Stamp(n: Notification, now: int): Notification {
    n.(isRead := true, readAt := Some(now))
  }

  /** markAllAsRead: every unread notification of the caller is stamped
      read; every other row is kept as it was. */
  function MarkAllRead(t: Table, userId: string, now: int): (r: Table)
    ensures r.Keys == t.Keys
    ensures forall k :: k in r ==> !UnreadOf(r[k], userId)
    ensures forall k :: k in t && UnreadOf(t[k], userId) ==> r[k].isRead && r[k].readAt == Some(now)
    ensures forall k :: k in t && !UnreadOf(t[k], userId) ==> r[k] == t[k]
  {
    map k | k in t :: if UnreadOf(t[k], userId) then Stamp(t[k], now) else t[k]
  }

  /** deleteRead: exactly the caller's read notifications are removed. */
  function DeleteRead(t: Table, userId: string): (r: Table)
    ensures r.Keys <= t.Keys
    ensures forall k :: k in t ==> (k in r <==> !ReadOf(t[k], userId))
    ensures forall k :: k in r ==> r[k] == t[k]
  {
    map k | k in t && !ReadOf(t[k], userId) :: t[k]
  }

  /** deleteExpired: exactly the caller's notifications older than thirty
      days are removed. */
  function DeleteExpired(t: Table, userId: string, now: int): (r: Table)
    ensures r.Keys <= t.Keys
    ensures forall k :: k in t ==> (k in r <==> !ExpiredOf(t[k], userId, now))
    ensures forall k :: k in r ==> r[k] == t[k]
  {
    map k | k in t && !ExpiredOf(t[k], userId, now) :: t[k]
  }

  /** notificationIds: the listed notifications that belong to the caller
      are stamped read; every other row is kept as it was. */
  function MarkSelected(t: Table, userId: string, ids: seq<string>, now: int): (r: Table)
    ensures r.Keys == t.Keys
    ensures forall k :: k in t && SelectedOf(t[k], userId, ids) ==> r[k].isRead && r[k].readAt == Some(now)
    ensures forall k :: k in t && !SelectedOf(t[k], userId, ids) ==> r[k] == t[k]
  {
    map k | k in t :: if SelectedOf(t[k], userId, ids) then Stamp(t[k], now) else t[k]
  }

  function Matching(t: Table, userId: string, step: nat, ids: seq<string>, now: int): set<string>
    requires step < 4
  {
    set k | k in t && (if step == 0 then UnreadOf(t[k], userId)
                       else if step == 1 then ReadOf(t[k], userId)
                       else if step == 2 then ExpiredOf(t[k], userId, now)
                       else SelectedOf(t[k], userId, ids))
  }

  /** markAllAsRead, when requested: the caller's unread rows are stamped read. */
  function MarkAllStep(o: BulkOutcome, userId: string, on: bool, now: int): BulkOutcome {
    if !on then o else
      var a := |Matching(o.table, userId, 0, [], now)|;
      BulkOutcome(MarkAllRead(o.table, userId, now), a, "Marked " + NatToString(a) + " notifications as read")
  }

  /** deleteRead, when requested: the caller's read rows are removed. */
  function DeleteReadStep(o: BulkOutcome, userId: string, on: bool): BulkOutcome {
    if !on then o else
      var a := |Matching(o.table, userId, 1, [], 0)|;
      BulkOutcome(DeleteRead(o.table, userId), a, "Deleted " + NatToString(a) + " read notifications")
  }

  /** deleteExpired, when requested: the caller's rows older than thirty days
      are removed. */
  function DeleteExpiredStep(o: BulkOutcome, userId: string, on: bool, now: int): BulkOutcome {
    if !on then o else
      var a := |Matching(o.table, userId, 2, [], now)|;
      BulkOutcome(DeleteExpired(o.table, userId, now), a, "Deleted " + NatToString(a) + " expired notifications")
  }

  /** The id list, when non-empty: the caller's listed rows are stamped read. */
  function SelectedStep(o: BulkOutcome, userId: string, ids: seq<string>, now: int): BulkOutcome {
    if |ids| == 0 then o else
      var a := |Matching(o.table, userId, 3, ids, now)|;
      BulkOutcome(MarkSelected(o.table, userId, ids, now), a, "Updated " + NatToString(a) + " specific notifications")
  }

  /** The four steps run in order on the outcome of the previous one; each
      that runs reports its own count of matched rows. */
  function BulkSpec(t: Table, userId: string, req: BulkRequest, now: int): (o: BulkOutcome) {
    var o1 := MarkAllStep(BulkOutcome(t, 0, ""), userId, req.markAllAsRead, now);
    var o2 := DeleteReadStep(o1, userId, req.deleteRead);
    var o3 := DeleteExpiredStep(o2, userId, req.deleteExpired, now);
    SelectedStep(o3, userId, req.notificationIds, now)
  }

  /** Rows of other recipients are never touched by a bulk request. */
  lemma BulkTouchesOnlyCaller(t: Table, userId: string, req: BulkRequest, now: int, k: string)
    requires k in t && t[k].recipientId != userId
    ensures k in BulkSpec(t, userId, req, now).table && BulkSpec(t, userId, req, now).table[k] == t[k]
  {
  }

  /** A bulk request adds no rows, and every row it keeps is unchanged or
      just stamped read. */
  lemma BulkOnlyMarksAndRemoves(t: Table, userId: string, req: BulkRequest, now: int, k: string)
    requires k in BulkSpec(t, userId, req, now).table
    ensures k in t
    ensures var n := BulkSpec(t, userId, req, now).table[k]; n == t[k] || n == Stamp(t[k], now)
  {
  }

  /** After markAllAsRead the caller has no unread notification left. */
  lemma MarkAllLeavesNothingUnread(t: Table, userId: string, req: BulkRequest, now: int)
    requires req.markAllAsRead
    ensures Store.UnreadCount(BulkSpec(t, userId, req, now).table, userId) == 0
  {
    var r := BulkSpec(t, userId, req, now).table;
    forall k | k in r ensures !UnreadOf(r[k], userId) {
    }
    assert Store.UnreadIds(r, userId) == {};
  }

  /** After deleteExpired no remaining notification of the caller shows as
      expired in its response at the same instant. */
  lemma DeleteExpiredLeavesNoneExpired(t: Table, userId: string, req: BulkRequest, now: int, k: string)
    requires req.deleteExpired
    requires k in BulkSpec(t, userId, req, now).table
    requires BulkSpec(t, userId, req, now).table[k].recipientId == userId
    ensures var n := BulkSpec(t, userId, req, now).table[k];
            !NotificationDto.ActionsFor(n.isRead, Some(n.createdAt), now).isExpired
  {
    var n := BulkSpec(t, userId, req, now).table[k];
    NotificationDto.ExpiredIffOlderThanThirtyDays(n.createdAt, now, n.isRead);
  }

  /** deleteRead removes every read notification of the caller, unless the
      later id step marks some read again. */
  lemma DeleteReadLeavesNoneRead(t: Table, userId: string, req: BulkRequest, now: int, k: string)
    requires req.deleteRead && |req.notificationIds| == 0
    requires k in BulkSpec(t, userId, req, now).table
    ensures !ReadOf(BulkSpec(t, userId, req, now).table[k], userId)
  {
  }

  /** The reported count and message come from the last step that ran; with
      no step the count is 0 and the message empty; the id step never counts
      more rows than ids were given. */
  lemma BulkReportsLastStep(t: Table, userId: string, req: BulkRequest, now: int)
    requires forall k :: k in t ==> t[k].id == k
    ensures var o := BulkSpec(t, userId, req, now);
            && (!req.markAllAsRead && !req.deleteRead && !req.deleteExpired && |req.notificationIds| == 0 ==>
                  o == BulkOutcome(t, 0, ""))
            && (req.markAllAsRead && !req.deleteRead && !req.deleteExpired && |req.notificationIds| == 0 ==>
                  o.affected == Store.UnreadCount(t, userId)
                  && o.message == "Marked " + NatToString(o.affected) + " notifications as read")
            && (|req.notificationIds| > 0 ==>
                  o.message == "Updated " + NatToString(o.affected) + " specific notifications"
                  && o.affected <= |req.notificationIds|)
            && (req.deleteExpired && |req.notificationIds| == 0 ==>
                  o.message == "Deleted " + NatToString(o.affected) + " expired notifications")
  {
    var o := BulkSpec(t, userId, req, now);
    if req.markAllAsRead && !req.deleteRead && !req.deleteExpired && |req.notificationIds| == 0 {
      assert Matching(t, userId, 0, [], now) == Store.UnreadIds(t, userId);
    }
    if |req.notificationIds| > 0 {
      var o3 := BulkSpec(t, userId, req.(notificationIds := []), now).table;
      assert o3.Keys <= t.Keys;
      var s := Matching(o3, userId, 3, req.notificationIds, now);
      assert o.affected == |s|;
      forall k | k in s ensures k in set x | x in req.notificationIds {
        BulkOnlyMarksAndRemoves(t, userId, req.(notificationIds := []), now, k);
      }
      IdsCard(req.notificationIds);
      SubsetCard(s, set x | x in req.notificationIds);
    }
  }

  /** A list of ids names at most as many distinct ids as it has entries. */
  lemma {:induction false} IdsCard(ids: seq<string>)
    ensures |set x | x in ids| <= |ids|
  {
    if ids != [] {
      IdsCard(ids[1..]);
      assert (set x | x in ids) == {ids[0]} + set x | x in ids[1..];
    }
  }

  /** A bulk request keeps every row under its own id. */
  lemma BulkKeepsKeys(t: Table, userId: string, req: BulkRequest, now: int)
    requires Store.NotificationsKeyed(t)
    ensures Store.NotificationsKeyed(BulkSpec(t, userId, req, now).table)
  {
    var r := BulkSpec(t, userId, req, now).table;
    forall k | k in r ensures r[k].id == k {
      BulkOnlyMarksAndRemoves(t, userId, req, now, k);
    }
  }

  /** Every bulk step keeps isRead and readAt together. */
  lemma BulkKeepsStamps(t: Table, userId: string, req: BulkRequest, now: int)
    requires ReadStamped(t)
    ensures ReadStamped(BulkSpec(t, userId, req, now).table)
  {
    var r := BulkSpec(t, userId, req, now).table;
    forall k | k in r ensures r[k].isRead <==> r[k].readAt.Some? {
      BulkOnlyMarksAndRemoves(t, userId, req, now, k);
    }
  }

  // ---------------------------------------------------------------------
  // Errors

  /** handleDatabaseError: a foreign-key violation is a bad reference, a
      unique violation a conflict, anything else a generic bad request. */
  function DatabaseError(code: string, detail: string, operation: string): (e: HttpError)
    ensures e.Conflict? <==> code == "23505"
    ensures e.NotFound? == false && e.Unauthorized? == false && e.Unhandled? == false
    ensures code == "23503" ==> e.message == "Invalid reference in " + operation
    ensures code == "23505" ==> e.message == "Duplicate entry in " + operation
    ensures code != "23503" && code != "23505" ==>
              e.message == "Database error in " + operation + ": " + detail
  {
    if code == "23503" then BadRequest("Invalid reference in " + operation)
    else if code == "23505" then Conflict("Duplicate entry in " + operation)
    else BadRequest("Database error in " + operation + ": " + detail)
  }

  // ---------------------------------------------------------------------
  // The service

  class NotificationsService {
    const db: Store.Database
    /** The summary cache keyed by user id. */
    var statsCache: map<string, Cached<Summary>>

    constructor (db: Store.Database)
      ensures this.db == db && statsCache == map[]
    {
      this.db := db;
      statsCache := map[];
    }

    /** What a creation does to the table, the cache and the event stream. */
    twostate predicate CreateEffect(dto: CreateRequest, now: int, new r: Result<Notification>, new events: seq<NotificationEvent>)
      reads this, db
    {
      var before := old(db.notifications);
      match CreateError(old(db.users), old(db.comments), dto)
      case Some(e) =>
        r == Failure(e) && events == [] && db.notifications == before && statsCache == old(statsCache)
      case None =>
        && r.Success?
        && db.notifications == before[r.value.id := r.value]
        && Delivers(r.value, dto, now)
        && (if Duplicates(before, dto, now) != {} then
              && r.value.id in Duplicates(before, dto, now)
              && r.value == Merge(before[r.value.id], dto, now)
              && statsCache == old(statsCache) && events == []
            else
              && r.value.id !in before
              && r.value == Inserted(r.value.id, dto, now)
              && statsCache == old(statsCache) - {dto.recipientId}
              && events == [NotificationCreated(WithRelations(db.users, db.comments, r.value, true), dto.recipientId)])
    }

    /** createNotification. */
    method CreateNotification(dto: CreateRequest, now: int) returns (r: Result<Notification>, events: seq<NotificationEvent>)
      requires db.Valid()
      modifies this`statsCache, db`notifications
      ensures db.Valid()
      ensures CreateEffect(dto, now, r, events)
      ensures CreateError(old(db.users), old(db.comments), dto).None? ==>
                r.Success? && Delivers(r.value, dto, now) && db.notifications == old(db.notifications)[r.value.id := r.value]
      ensures ReadStamped(old(db.notifications)) ==> ReadStamped(db.notifications)
      ensures forall k :: k in old(db.notifications) && old(db.notifications)[k].recipientId != dto.recipientId ==>
                k in db.notifications && db.notifications[k] == old(db.notifications)[k]
    {
      var err := CreateError(db.users, db.comments, dto);
      if err.Some? {
        return Failure(err.value), [];
      }
      var dups := Duplicates(db.notifications, dto, now);
      if dups != {} {
        var k :| k in dups;
        var merged := Merge(db.notifications[k], dto, now);
        BothPathsDeliver(db.notifications[k], dto, k, now);
        db.notifications := db.notifications[k := merged];
        return Success(merged), [];
      }
      var id := db.NewId();
      var n := Inserted(id, dto, now);
      db.notifications := db.notifications[id := n];
      statsCache := statsCache - {dto.recipientId};
      r := Success(n);
      events := [NotificationCreated(WithRelations(db.users, db.comments, n, true), dto.recipientId)];
    }

    /** createReplyNotification: builds the reply notification and creates
        it; when there is nothing to send, nothing happens. A failed creation
        is only logged, so its outcome is returned rather than raised. */
    method CreateReplyNotification(commentId: string, replyId: string, now: int)
      returns (outcome: Option<Result<Notification>>, events: seq<NotificationEvent>)
      requires db.Valid()
      modifies this`statsCache, db`notifications
      ensures db.Valid()
      ensures var req := ReplyRequest(old(db.users), old(db.comments), commentId, replyId);
              && (req.None? ==> outcome.None? && events == [] && db.notifications == old(db.notifications)
                                && statsCache == old(statsCache))
              && (req.Some? ==> outcome.Some? && outcome.value.Success?
                                && CreateEffect(req.value, now, outcome.value, events))
    {
      var req := ReplyRequest(db.users, db.comments, commentId, replyId);
      if req.None? {
        return None, [];
      }
      GeneratedRequestsAreValid(db.users, db.comments, commentId, replyId, "");
      var r;
      r, events := CreateNotification(req.value, now);
      outcome := Some(r);
    }

    /** createMentionNotification: one notification per mentioned user other
        than the author, each created as by createNotification. The creations
        concern distinct recipients, so running them one after the other
        gives the same table as running them together: each recipient's
        request is merged into a recent duplicate, silently, or inserted,
        which clears that recipient's cached summary and emits one
        notification.created. */
    method CreateMentionNotification(commentId: string, usernames: seq<string>, now: int)
      returns (events: seq<NotificationEvent>)
      requires db.Valid()
      modifies this`statsCache, db`notifications
      ensures db.Valid()
      ensures !(commentId in old(db.comments) && old(db.comments)[commentId].userId in old(db.users)) ==>
                events == [] && db.notifications == old(db.notifications) && statsCache == old(statsCache)
      ensures commentId in old(db.comments) && old(db.comments)[commentId].userId in old(db.users) ==>
                var c := old(db.comments)[commentId];
                var author := old(db.users)[c.userId];
                var recipients := MentionRecipients(old(db.users), c.userId, usernames);
                var inserting := FreshMentions(old(db.notifications), old(db.users), c, commentId, author, recipients, now);
                && BatchSoFar(old(db.notifications), db.notifications, old(statsCache), statsCache, events,
                              inserting, recipients, old(db.users), c, commentId, author, now)
    {
      events := [];
      if !(commentId in db.comments && db.comments[commentId].userId in db.users) {
        return;
      }
      var c := db.comments[commentId];
      var author := db.users[c.userId];
      var recipients := MentionRecipients(db.users, c.userId, usernames);
      ghost var inserting := FreshMentions(db.notifications, db.users, c, commentId, author, recipients, now);
      events := NotifyAll(c, commentId, author, recipients, now, inserting);
    }

    /** The creations of createMentionNotification, one recipient at a time. */
    method NotifyAll(c: Comment, commentId: string, author: User, recipients: set<string>, now: int,
                     ghost inserting: set<string>)
      returns (events: seq<NotificationEvent>)
      requires db.Valid()
      requires commentId in db.comments && c == db.comments[commentId]
      requires c.userId in db.users && author == db.users[c.userId]
      requires recipients <= db.users.Keys && c.userId !in recipients
      requires inserting == FreshMentions(db.notifications, db.users, c, commentId, author, recipients, now)
      modifies this`statsCache, db`notifications
      ensures db.Valid()
      ensures BatchSoFar(old(db.notifications), db.notifications, old(statsCache), statsCache, events,
                         inserting, recipients, old(db.users), c, commentId, author, now)
    {
      events := [];
      var pending := recipients;
      ghost var done: set<string> := {};
      ghost var t0, cache0, users0 := db.notifications, statsCache, db.users;
      BatchStarts(t0, cache0, inserting, users0, c, commentId, author, now);
      while pending != {}
        invariant db.Valid()
        invariant pending <= recipients && done == recipients - pending
        invariant db.users == users0 && db.comments == old(db.comments)
        invariant BatchSoFar(t0, db.notifications, cache0, statsCache, events, inserting, done, users0, c, commentId, author, now)
        decreases pending
      {
        var u :| u in pending;
        MoveToDone(recipients, pending, done, u);
        events := MentionNext(c, commentId, author, u, now, events, t0, cache0, inserting, done);
        pending := pending - {u};
        done := done + {u};
      }
    }

    /** One recipient of createMentionNotification: its request is merged or
        inserted, and what the batch has done so far extends to it. */
    method MentionNext(c: Comment, commentId: string, author: User, u: string, now: int,
                       events: seq<NotificationEvent>, ghost t0: Table, ghost cache0: map<string, Cached<Summary>>,
                       ghost inserting: set<string>, ghost done: set<string>)
      returns (events': seq<NotificationEvent>)
      requires db.Valid()
      requires commentId in db.comments && c == db.comments[commentId]
      requires c.userId in db.users && author == db.users[c.userId]
      requires u in db.users && u != c.userId && u !in done
      requires u in inserting <==> Duplicates(t0, MentionRequest(c, commentId, author, db.users[u]), now) == {}
      requires BatchSoFar(t0, db.notifications, cache0, statsCache, events, inserting, done, db.users, c, commentId, author, now)
      modifies this`statsCache, db`notifications
      ensures db.Valid()
      ensures BatchSoFar(t0, db.notifications, cache0, statsCache, events', inserting, done + {u}, db.users, c, commentId, author, now)
    {
      ghost var before, cacheBefore := db.notifications, statsCache;
      var r, e := NotifyMentioned(c, commentId, author, db.users[u], now);
      BatchStep(t0, before, db.notifications, cache0, cacheBefore, statsCache, events, e, inserting, done,
                db.users, c, commentId, author, now, r.value, WithRelations(db.users, db.comments, r.value, true), u);
      events' := events + e;
    }

    /** The notification of one mentioned user, as the callback of
        createMentionNotification builds and creates it: the request passes
        the checks, so it is merged into a recent duplicate or inserted. */
    method NotifyMentioned(c: Comment, commentId: string, author: User, recipient: User, now: int)
      returns (r: Result<Notification>, events: seq<NotificationEvent>)
      requires db.Valid()
      requires commentId in db.comments && c == db.comments[commentId]
      requires c.userId in db.users && author == db.users[c.userId]
      requires recipient.id in db.users && recipient == db.users[recipient.id] && recipient.id != c.userId
      modifies this`statsCache, db`notifications
      ensures db.Valid()
      ensures CreateEffect(MentionRequest(c, commentId, author, recipient), now, r, events)
      ensures r.Success? && r.value.recipientId == recipient.id
      ensures db.notifications == old(db.notifications)[r.value.id := r.value]
      ensures Delivers(r.value, MentionRequest(c, commentId, author, recipient), now)
      ensures Delivered(db.notifications, MentionRequest(c, commentId, author, recipient), now)
      ensures Duplicates(old(db.notifications), MentionRequest(c, commentId, author, recipient), now) == {} ==>
                && events == [NotificationCreated(WithRelations(db.users, db.comments, r.value, true), recipient.id)]
                && statsCache == old(statsCache) - {recipient.id}
      ensures Duplicates(old(db.notifications), MentionRequest(c, commentId, author, recipient), now) != {} ==>
                events == [] && statsCache == old(statsCache)
      ensures forall k :: k in old(db.notifications) && old(db.notifications)[k].recipientId != recipient.id ==>
                k in db.notifications && db.notifications[k] == old(db.notifications)[k]
    {
      var req := MentionRequest(c, commentId, author, recipient);
      GeneratedRequestsAreValid(db.users, db.comments, commentId, "", recipient.id);
      r, events := CreateNotification(req, now);
      assert Delivers(db.notifications[r.value.id], req, now);
    }

    /** updateNotification: only the recipient may change a notification.
        A request without isRead leaves the update with no column to set,
        which TypeORM refuses: the call fails after the ownership check and
        nothing changes. */
    method UpdateNotification(notificationId: string, userId: string, isRead: Option<bool>, now: int)
      returns (r: Result<Notification>, events: seq<NotificationEvent>)
      requires db.Valid()
      modifies this`statsCache, db`notifications
      ensures db.Valid()
      ensures var before := old(db.notifications);
              if notificationId !in before || before[notificationId].recipientId != userId then
                && r == Failure(NotFound("Notification not found or access denied"))
                && events == [] && db.notifications == before && statsCache == old(statsCache)
              else if isRead.None? then
                && r == Failure(Unhandled(UpdateValuesMissing))
                && events == [] && db.notifications == before && statsCache == old(statsCache)
              else
                && r == Success(ApplyRead(before[notificationId], isRead.value, now))
                && db.notifications == before[notificationId := r.value]
                && statsCache == old(statsCache) - {userId}
                && events == [NotificationUpdated(WithRelations(db.users, db.comments, r.value, false), userId)]
      ensures ReadStamped(old(db.notifications)) ==> ReadStamped(db.notifications)
    {
      if notificationId !in db.notifications || db.notifications[notificationId].recipientId != userId {
        return Failure(NotFound("Notification not found or access denied")), [];
      }
      if isRead.None? {
        return Failure(Unhandled(UpdateValuesMissing)), [];
      }
      ApplyReadEffects(db.notifications, notificationId, isRead.value, now);
      var updated := ApplyRead(db.notifications[notificationId], isRead.value, now);
      db.notifications := db.notifications[notificationId := updated];
      statsCache := statsCache - {userId};
      r := Success(updated);
      events := [NotificationUpdated(WithRelations(db.users, db.comments, updated, false), userId)];
    }

    /** bulkUpdateNotifications: the steps run one after the other and each
        that runs overwrites the count and the message. */
    method BulkUpdateNotifications(userId: string, req: BulkRequest, now: int)
      returns (affected: nat, message: string, events: seq<NotificationEvent>)
      requires db.Valid()
      modifies this`statsCache, db`notifications
      ensures db.Valid()
      ensures BulkOutcome(db.notifications, affected, message) == BulkSpec(old(db.notifications), userId, req, now)
      ensures statsCache == old(statsCache) - {userId}
      ensures events == [NotificationsBulkUpdated(userId, req, affected)]
    {
      BulkKeepsKeys(db.notifications, userId, req, now);
      affected := 0;
      message := "";
      ghost var o := BulkOutcome(db.notifications, 0, "");
      if req.markAllAsRead {
        affected := |Matching(db.notifications, userId, 0, [], now)|;
        db.notifications := MarkAllRead(db.notifications, userId, now);
        message := "Marked " + NatToString(affected) + " notifications as read";
      }
      o := MarkAllStep(o, userId, req.markAllAsRead, now);
      assert BulkOutcome(db.notifications, affected, message) == o;
      if req.deleteRead {
        affected := |Matching(db.notifications, userId, 1, [], 0)|;
        db.notifications := DeleteRead(db.notifications, userId);
        message := "Deleted " + NatToString(affected) + " read notifications";
      }
      o := DeleteReadStep(o, userId, req.deleteRead);
      assert BulkOutcome(db.notifications, affected, message) == o;
      if req.deleteExpired {
        affected := |Matching(db.notifications, userId, 2, [], now)|;
        db.notifications := DeleteExpired(db.notifications, userId, now);
        message := "Deleted " + NatToString(affected) + " expired notifications";
      }
      o := DeleteExpiredStep(o, userId, req.deleteExpired, now);
      assert BulkOutcome(db.notifications, affected, message) == o;
      if |req.notificationIds| > 0 {
        affected := |Matching(db.notifications, userId, 3, req.notificationIds, now)|;
        db.notifications := MarkSelected(db.notifications, userId, req.notificationIds, now);
        message := "Updated " + NatToString(affected) + " specific notifications";
      }
      o := SelectedStep(o, userId, req.notificationIds, now);
      assert BulkOutcome(db.notifications, affected, message) == o;
      statsCache := statsCache - {userId};
      events := [NotificationsBulkUpdated(userId, req, affected)];
    }

    /** deleteNotification: only the recipient may delete a notification. */
    method DeleteNotification(notificationId: string, userId: string)
      returns (err: Option<HttpError>, events: seq<NotificationEvent>)
      requires db.Valid()
      modifies this`statsCache, db`notifications
      ensures db.Valid()
      ensures var before := old(db.notifications);
              if notificationId !in before || before[notificationId].recipientId != userId then
                && err == Some(NotFound("Notification not found or access denied"))
                && events == [] && db.notifications == before && statsCache == old(statsCache)
              else
                && err.None? && db.notifications == before - {notificationId}
                && statsCache == old(statsCache) - {userId}
                && events == [NotificationDeleted(notificationId, userId)]
    {
      if notificationId !in db.notifications || db.notifications[notificationId].recipientId != userId {
        return Some(NotFound("Notification not found or access denied")), [];
      }
      db.notifications := db.notifications - {notificationId};
      statsCache := statsCache - {userId};
      err := None;
      events := [NotificationDeleted(notificationId, userId)];
    }

    /** getUnreadCount. */
    function GetUnreadCount(userId: string): (n: nat)
      reads this, db
      ensures n == |Store.UnreadIds(db.notifications, userId)|
      ensures n <= |db.notifications|
    {
      var ids := Store.UnreadIds(db.notifications, userId);
      SubsetCard(ids, db.notifications.Keys);
      |ids|
    }

    /** The cache side of getUserNotificationsSummary: a fresh entry is
        served as it is; otherwise the summary computed from the table (a
        parameter here) is stored with the current time. */
    method NotificationsSummary(userId: string, now: int, computed: Summary) returns (s: Summary)
      modifies this`statsCache
      ensures var hit := CacheHit(if userId in old(statsCache) then Some(old(statsCache)[userId]) else None, now, StatsCacheTtl);
              if hit.Some? then s == hit.value && statsCache == old(statsCache)
              else s == computed && statsCache == old(statsCache)[userId := Cached(computed, now)]
    {
      var hit := CacheHit(if userId in statsCache then Some(statsCache[userId]) else None, now, StatsCacheTtl);
      if hit.Some? {
        return hit.value;
      }
      s := computed;
      statsCache := statsCache[userId := Cached(computed, now)];
    }
  }
}
