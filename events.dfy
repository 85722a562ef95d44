/** The in-process events the services emit and the gateways route to
    clients. */
module Events {
  import opened Common
  import opened Records
  import CommentDto

  datatype CommentEvent =
    /** comment.created: the new comment and the parent id as requested. */
    | CommentCreated(comment: CommentDto.CommentResponse, parentId: Option<string>)
    /** comment.reply_count_updated: new counters of a comment. */
    | ReplyCountUpdated(commentId: string, replyCount: int, totalReplies: int)
    /** comment.updated: the edited comment. */
    | CommentUpdated(comment: CommentDto.CommentResponse)
    /** comment.deleted: the deleted comment's id and its parent id. */
    | CommentDeleted(commentId: string, parentId: Option<string>)

  /** A notification row with the relations loaded beside it before it is
      emitted, each the whole row as stored (null when the reference is
      missing or not joined). */
  datatype LoadedNotification = LoadedNotification(
    row: Notification,
    recipient: Option<User>,
    fromUser: Option<User>,
    relatedComment: Option<Comment>)

  /** Every notification event names the recipient whose channel it goes
      to. */
  datatype NotificationEvent =
    /** notification.created: the new notification with its recipient,
        sender and related comment. */
    | NotificationCreated(notification: LoadedNotification, recipientId: string)
    /** notification.updated: the updated notification with its sender and
        related comment. */
    | NotificationUpdated(notification: LoadedNotification, recipientId: string)
    /** notification.bulk_updated: the bulk request and how many rows its
        last step affected. */
    | NotificationsBulkUpdated(recipientId: string, operation: BulkRequest, affected: nat)
    /** notification.deleted: the id of the deleted notification. */
    | NotificationDeleted(notificationId: string, recipientId: string)
}
