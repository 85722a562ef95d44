/** The rows of the three tables the services work on. Timestamps are
    milliseconds since the epoch; a nullable column is an Option. */
module Records {
  import opened Common

  datatype User = User(
    id: string,
    username: string,
    passwordHash: string,
    commentCount: int,
    replyCount: int,
    createdAt: int,
    updatedAt: int)

  /** A comment or a reply. A reply's parent is another comment; deletion is
      soft, so a deleted comment keeps its place in the tree. */
  datatype Comment = Comment(
    id: string,
    userId: string,
    parentId: Option<string>,
    text: string,
    isDeleted: bool,
    replyCount: int,
    totalReplies: int,
    lastReplyAt: Option<int>,
    createdAt: int,
    updatedAt: int)

  datatype NotificationType = Reply | Mention | CommentDeleted | System

  datatype Priority = Low | Medium | High

  /** A notification as the service reads and writes it (recipientId,
      fromUserId, relatedCommentId); metadata values are strings. */
  datatype Notification = Notification(
    id: string,
    recipientId: string,
    notificationType: NotificationType,
    title: string,
    message: string,
    fromUserId: Option<string>,
    relatedCommentId: Option<string>,
    actionUrl: Option<string>,
    priority: Priority,
    metadata: map<string, string>,
    isRead: bool,
    readAt: Option<int>,
    createdAt: int)

  /** A bulk request on the caller's notifications; an absent flag is false
      and an absent id list is empty. */
  datatype BulkRequest = BulkRequest(
    markAllAsRead: bool,
    deleteRead: bool,
    deleteExpired: bool,
    notificationIds: seq<string>)
}
