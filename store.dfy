/** The database the three services share, as an in-memory table per
    entity keyed by id. Queries and updates of the services become reads and
    assignments of these maps. */
module Store {
  import opened Common
  import opened Records
  import CommentTree

  type NotificationTable = map<string, Notification>

  /** The ids of a user's unread notifications: what getUnreadCount counts. */
  function UnreadIds(table: NotificationTable, userId: string): set<string> {
    set k | k in table && table[k].recipientId == userId && !table[k].isRead
  }

  function UnreadCount(table: NotificationTable, userId: string): nat {
    |UnreadIds(table, userId)|
  }

  /** Marking one of a user's unread notifications read lowers that user's
      unread count by one and leaves every other user's count alone. */
  lemma MarkReadLowersUnread(table: NotificationTable, id: string, readAt: int, other: string)
    requires id in table && !table[id].isRead
    ensures var t' := table[id := table[id].(isRead := true, readAt := Some(readAt))];
            UnreadCount(t', table[id].recipientId) == UnreadCount(table, table[id].recipientId) - 1
            && (other != table[id].recipientId ==> UnreadCount(t', other) == UnreadCount(table, other))
  {
    var t' := table[id := table[id].(isRead := true, readAt := Some(readAt))];
    assert UnreadIds(t', table[id].recipientId) == UnreadIds(table, table[id].recipientId) - {id};
    if other != table[id].recipientId {
      assert UnreadIds(t', other) == UnreadIds(table, other);
    }
  }

  /** Storing a new unread notification raises its recipient's unread count
      by one and leaves every other user's count alone. */
  lemma InsertUnreadRaisesCount(table: NotificationTable, n: Notification, other: string)
    requires n.id !in table && !n.isRead
    ensures UnreadCount(table[n.id := n], n.recipientId) == UnreadCount(table, n.recipientId) + 1
    ensures other != n.recipientId ==> UnreadCount(table[n.id := n], other) == UnreadCount(table, other)
  {
    assert UnreadIds(table[n.id := n], n.recipientId) == UnreadIds(table, n.recipientId) + {n.id};
    if other != n.recipientId {
      assert UnreadIds(table[n.id := n], other) == UnreadIds(table, other);
    }
  }

  /** Every notification is stored under its own id. */
  predicate NotificationsKeyed(table: NotificationTable) {
    forall k :: k in table ==> table[k].id == k
  }

  predicate UsersKeyed(users: map<string, User>) {
    forall k :: k in users ==> users[k].id == k
  }

  /** Every comment is stored under its own id, no id is empty (ids are
      generated UUIDs), and every comment's author has a row. */
  predicate CommentsKeyed(users: map<string, User>, comments: CommentTree.Table) {
    && "" !in comments
    && forall k :: k in comments ==> comments[k].id == k && comments[k].userId in users
  }

  class Database {
    var users: map<string, User>
    var comments: CommentTree.Table
    var notifications: NotificationTable
    /** A rank per comment witnessing that the parent chain has no cycle. */
    ghost var rank: map<string, nat>

    /** Every row is stored under its own id and the comments form a forest. */
    ghost predicate Valid()
      reads this
    {
      && UsersKeyed(users)
      && CommentsKeyed(users, comments)
      && NotificationsKeyed(notifications)
      && CommentTree.Forest(comments, rank)
    }

    constructor ()
      ensures Valid()
      ensures users == map[] && comments == map[] && notifications == map[]
    {
      users := map[];
      comments := map[];
      notifications := map[];
      rank := map[];
    }

    /** A fresh primary key: a string longer than every key in use. */
    method NewId() returns (id: string)
      ensures id != "" && id !in users && id !in comments && id !in notifications
    {
      var keys := users.Keys + comments.Keys + notifications.Keys;
      id := "0";
      var rest := keys;
      while rest != {}
        invariant rest <= keys && id != ""
        invariant forall k :: k in keys - rest ==> |k| < |id|
        decreases rest
      {
        var k :| k in rest;
        if |k| >= |id| {
          id := k + "0";
        }
        rest := rest - {k};
      }
    }
  }
}
