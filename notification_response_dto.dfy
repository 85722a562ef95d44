/** The response shape of a notification: the quoted-comment truncation and
    the actions flags. The fromUser and relatedComment relations are written
    as loaded, without reshaping. */
module NotificationDto {
  import opened Common
  import opened Records

  /** Thirty days in milliseconds: the age past which a notification is
      expired. */
  const ExpiryMs := 30 * 24 * 60 * 60 * 1000

  /** The text transform of a quoted comment. An absent text goes through
      string concatenation and comes out as "undefined"; a present one is
      cut to 100 UTF-16 code units, with "..." only when something was cut. */
  function CommentText(value: Option<string>): (r: string)
    ensures value.None? ==> r == "undefined"
    ensures value.Some? && Utf16Length(value.value) <= 100 ==> r == value.value
    ensures value.Some? && Utf16Length(value.value) > 100 ==> IsCutPreview(value.value, r) && |r| <= 103
  {
    match value
    case None => "undefined"
    case Some(t) => PreviewShape(t); Preview(t)
  }

  datatype Actions = Actions(canMarkAsRead: bool, canDelete: bool, isExpired: bool)

  /** The actions a client may offer for a notification at time now. */
  function ActionsFor(isRead: bool, createdAt: Option<int>, now: int): (a: Actions)
    ensures a.canMarkAsRead == !isRead
    ensures a.canDelete
  {
    Actions(!isRead, true, createdAt.Some? && createdAt.value < now - ExpiryMs)
  }

  /** A notification is expired exactly when it was created more than thirty
      days before now; one exactly thirty days old is not yet expired. */
  lemma ExpiredIffOlderThanThirtyDays(createdAt: int, now: int, isRead: bool)
    ensures ActionsFor(isRead, Some(createdAt), now).isExpired <==> now - createdAt > 2592000000
    ensures !ActionsFor(isRead, None, now).isExpired
  {
  }

  /** Expiry is permanent: a notification expired at now stays expired at
      every later time. */
  lemma ExpiryIsMonotone(createdAt: Option<int>, now: int, later: int, isRead: bool)
    requires now <= later
    requires ActionsFor(isRead, createdAt, now).isExpired
    ensures ActionsFor(isRead, createdAt, later).isExpired
  {
  }

  datatype NotificationResponse = NotificationResponse(
    id: string,
    notificationType: NotificationType,
    title: string,
    message: string,
    isRead: bool,
    createdAt: int,
    readAt: Option<int>,
    fromUser: Option<User>,
    relatedComment: Option<Comment>,
    actionUrl: Option<string>,
    priority: Priority,
    actions: Actions)

  /** A notification row with its loaded sender and related comment, as a
      response at time now. */
  function ToResponse(n: Notification, fromUser: Option<User>, relatedComment: Option<Comment>, now: int): (r: NotificationResponse)
    ensures r.id == n.id && r.isRead == n.isRead && r.readAt == n.readAt
    ensures r.fromUser == fromUser && r.relatedComment == relatedComment
    ensures r.actions.canMarkAsRead != r.isRead
    ensures r.actions.isExpired <==> n.createdAt < now - ExpiryMs
  {
    NotificationResponse(
      n.id, n.notificationType, n.title, n.message, n.isRead, n.createdAt, n.readAt,
      fromUser, relatedComment, n.actionUrl, n.priority,
      ActionsFor(n.isRead, Some(n.createdAt), now))
  }
}
