/** The notifications gateway: authenticates sockets, keeps each user in the
    private room "user_<id>", relays the notification events of the service
    to that room followed by the user's unread count, and answers the
    client's requests. */
module NotificationsGateway {
  import opened Common
  import opened Records
  import opened Transport
  import opened Events
  import Notifications
  import Store

  datatype Payload =
    | NewNotification(notification: LoadedNotification)
    | UpdatedNotification(notification: LoadedNotification)
    | BulkUpdated(operation: BulkRequest, affected: nat)
    | DeletedNotification(notificationId: string)
    | UnreadCount(count: nat)
    | ErrorMessage(message: string)
    /** An error frame that also carries the failure's own message. */
    | HandlerFailed(message: string, error: string)
    | JoinedNotifications(userId: string)
    | MarkedRead(notificationId: string)

  type NotificationFrame = Frame<Payload>

  /** The event name and payload a service event is relayed with. */
  function Relayed(e: NotificationEvent): (r: (string, Payload))
  {
    match e
    case NotificationCreated(n, _) => ("notification.new", NewNotification(n))
    case NotificationUpdated(n, _) => ("notification.updated", UpdatedNotification(n))
    case NotificationsBulkUpdated(_, op, affected) => ("notification.bulk_updated", BulkUpdated(op, affected))
    case NotificationDeleted(id, _) => ("notification.deleted", DeletedNotification(id))
  }

  /** The four event handlers: the event goes to the recipient's room, then
      the recipient's unread count as read after the event. A created or
      updated notification is forwarded as the service emitted it, with its
      loaded relations. */
  function RouteNotificationEvent(e: NotificationEvent, unread: nat): (frames: seq<NotificationFrame>)
    ensures |frames| == 2
    ensures forall f :: f in frames ==> f.Emit? && f.target == ToRoom(UserRoomName(Some(e.recipientId)))
    ensures frames[0].event == Relayed(e).0 && frames[0].payload == Relayed(e).1
    ensures frames[1].event == "unread_count" && frames[1].payload == UnreadCount(unread)
  {
    var room := ToRoom(UserRoomName(Some(e.recipientId)));
    [Emit(room, Relayed(e).0, Relayed(e).1), Emit(room, "unread_count", UnreadCount(unread))]
  }

  /** Relayed events never reach another user's room. */
  lemma EventsStayWithRecipient(e: NotificationEvent, unread: nat, userId: string)
    requires userId != e.recipientId
    ensures forall f :: f in RouteNotificationEvent(e, unread) ==> f.target != ToRoom(UserRoomName(Some(userId)))
  {
    RoomNamesInjective(userId, e.recipientId);
  }

  /** A relayed creation carries the sender's whole user row, so the
      recipient's room receives the sender's password hash; an update
      carries it too. */
  lemma RelayCarriesSenderRow(users: map<string, User>, comments: map<string, Comment>, n: Notification, unread: nat)
    requires n.fromUserId.Some? && n.fromUserId.value in users
    ensures var f := RouteNotificationEvent(NotificationCreated(Notifications.WithRelations(users, comments, n, true), n.recipientId), unread)[0];
            && f.target == ToRoom(UserRoomName(Some(n.recipientId)))
            && f.payload.NewNotification?
            && f.payload.notification.fromUser == Some(users[n.fromUserId.value])
            && f.payload.notification.fromUser.value.passwordHash == users[n.fromUserId.value].passwordHash
    ensures var f := RouteNotificationEvent(NotificationUpdated(Notifications.WithRelations(users, comments, n, false), n.recipientId), unread)[0];
            && f.payload.UpdatedNotification?
            && f.payload.notification.fromUser.value.passwordHash == users[n.fromUserId.value].passwordHash
  {
  }

  /** Error frames to one socket. */
  function Refuse(socketId: string, message: string): (frames: seq<NotificationFrame>)
  {
    [Emit(ToSocket(socketId), "error", ErrorMessage(message))]
  }

  /** The users among the given sockets: those with a truthy user id. */
  function UsersOf(clients: map<string, Socket>, ids: set<string>): set<string>
  {
    set id | id in ids && id in clients && Truthy(clients[id].userId) :: clients[id].userId.value
  }

  ghost predicate Online(clients: map<string, Socket>, userId: string) {
    exists id :: id in clients && clients[id].userId == Some(userId)
  }

  /** A set of sockets holds at most as many users as sockets. */
  lemma {:induction false} UsersAtMostSockets(clients: map<string, Socket>, ids: set<string>)
    ensures |UsersOf(clients, ids)| <= |ids|
    decreases ids
  {
    if ids != {} {
      var x :| x in ids;
      UsersAtMostSockets(clients, ids - {x});
      var rest := UsersOf(clients, ids - {x});
      if x in clients && Truthy(clients[x].userId) {
        assert UsersOf(clients, ids) <= rest + {clients[x].userId.value};
        assert |rest + {clients[x].userId.value}| <= |rest| + 1;
      } else {
        assert UsersOf(clients, ids) <= rest;
      }
      SubsetCard(UsersOf(clients, ids), if x in clients && Truthy(clients[x].userId) then rest + {clients[x].userId.value} else rest);
    }
  }

  /** The connected users are exactly the non-empty user ids some socket is
      online as. */
  lemma ConnectedUsersAreOnline(clients: map<string, Socket>, userId: string)
    requires userId != ""
    ensures userId in UsersOf(clients, clients.Keys) <==> Online(clients, userId)
  {
    if Online(clients, userId) {
      var id :| id in clients && clients[id].userId == Some(userId);
      assert clients[id].userId.value in UsersOf(clients, clients.Keys);
    }
  }

  class NotificationsGateway {
    const service: Notifications.NotificationsService
    var connectedClients: map<string, Socket>

    /** Every socket is registered under its own id. */
    ghost predicate Valid()
      reads this
    {
      forall id :: id in connectedClients ==> connectedClients[id].id == id
    }

    constructor (service: Notifications.NotificationsService)
      ensures Valid() && this.service == service && connectedClients == map[]
    {
      this.service := service;
      connectedClients := map[];
    }

    /** getUnreadCount for a socket's user id; an absent id is bound as
        NULL and matches no row. */
    function UnreadFor(userId: Option<string>): (n: nat)
      reads service, service.db
      ensures userId.None? ==> n == 0
      ensures userId.Some? ==> n == Store.UnreadCount(service.db.notifications, userId.value)
    {
      if userId.Some? then service.GetUnreadCount(userId.value) else 0
    }

    /** Connection: a client without a token, or whose token does not
        verify, is disconnected; otherwise the claims are recorded on the
        socket, which joins its user's room, is registered and is sent the
        unread count. */
    method HandleConnection(client: Socket, verify: string -> Option<Claims>) returns (socket: Socket, frames: seq<NotificationFrame>)
      requires Valid()
      modifies this`connectedClients
      ensures Valid()
      ensures var token := ExtractToken(client.handshake);
              if token.None? || verify(token.value).None? then
                socket == client && connectedClients == old(connectedClients) && frames == [Disconnect(client.id)]
              else
                var claims := verify(token.value).value;
                && socket == client.(userId := claims.sub, username := claims.username)
                && connectedClients == old(connectedClients)[client.id := socket]
                && frames == [Join(client.id, UserRoomName(claims.sub)),
                              Emit(ToSocket(client.id), "unread_count", UnreadCount(UnreadFor(claims.sub)))]
    {
      var token := ExtractToken(client.handshake);
      if token.None? {
        return client, [Disconnect(client.id)];
      }
      var claims := verify(token.value);
      if claims.None? {
        return client, [Disconnect(client.id)];
      }
      socket := client.(userId := claims.value.sub, username := claims.value.username);
      frames := [Join(client.id, UserRoomName(socket.userId))];
      connectedClients := connectedClients[client.id := socket];
      var count := UnreadFor(socket.userId);
      frames := frames + [Emit(ToSocket(client.id), "unread_count", UnreadCount(count))];
    }

    /** Disconnection: the socket is unregistered. */
    method HandleDisconnect(client: Socket)
      requires Valid()
      modifies this`connectedClients
      ensures Valid() && connectedClients == old(connectedClients) - {client.id}
    {
      connectedClients := connectedClients - {client.id};
    }

    /** handleNotificationCreated, handleNotificationUpdated,
        handleBulkNotificationUpdate and handleNotificationDeleted. */
    function HandleNotificationEvent(e: NotificationEvent): (frames: seq<NotificationFrame>)
      reads service, service.db
      ensures frames == RouteNotificationEvent(e, Store.UnreadCount(service.db.notifications, e.recipientId))
    {
      RouteNotificationEvent(e, UnreadFor(Some(e.recipientId)))
    }

    /** join_notifications: only an authenticated socket may join, and only
        its own room. */
    function HandleJoinNotifications(client: Socket, requested: Option<string>): (frames: seq<NotificationFrame>)
      reads service, service.db
      ensures !Truthy(client.userId) ==> frames == Refuse(client.id, "Not authenticated")
      ensures Truthy(client.userId) && Truthy(requested) && requested != client.userId ==>
                frames == Refuse(client.id, "Access denied")
      ensures (exists f :: f in frames && f.Join?) <==>
                Truthy(client.userId) && (!Truthy(requested) || requested == client.userId)
      ensures forall f :: f in frames && f.Join? ==> f == Join(client.id, UserRoomName(client.userId))
      ensures forall f :: f in frames && f.Emit? ==> f.target == ToSocket(client.id)
    {
      if !Truthy(client.userId) then Refuse(client.id, "Not authenticated")
      else if Truthy(requested) && requested != client.userId then Refuse(client.id, "Access denied")
      else
        var frames := [Join(client.id, UserRoomName(client.userId)),
                       Emit(ToSocket(client.id), "unread_count", UnreadCount(UnreadFor(client.userId))),
                       Emit(ToSocket(client.id), "joined_notifications", JoinedNotifications(client.userId.value))];
        assert frames[0] in frames && frames[0].Join?;
        frames
    }

    /** mark_notification_read: marks the notification read through the
        service; a refusal of the service becomes an error frame. The
        service's own event is returned for the event bus. */
    method HandleMarkNotificationRead(client: Socket, notificationId: string, now: int)
      returns (frames: seq<NotificationFrame>, events: seq<NotificationEvent>)
      requires service.db.Valid()
      modifies service`statsCache, service.db`notifications
      ensures service.db.Valid()
      ensures !Truthy(client.userId) ==>
                frames == Refuse(client.id, "Not authenticated") && events == []
                && service.db.notifications == old(service.db.notifications)
      ensures Truthy(client.userId) ==>
                var before := old(service.db.notifications);
                var owned := notificationId in before && before[notificationId].recipientId == client.userId.value;
                && (owned ==>
                      && frames == [Emit(ToSocket(client.id), "notification_marked_read", MarkedRead(notificationId))]
                      && service.db.notifications == before[notificationId := Notifications.ApplyRead(before[notificationId], true, now)]
                      && events == [NotificationUpdated(Notifications.WithRelations(service.db.users, service.db.comments,
                                                                                   service.db.notifications[notificationId], false),
                                                        client.userId.value)]
                      && (!before[notificationId].isRead ==>
                            UnreadFor(client.userId) == Store.UnreadCount(before, client.userId.value) - 1))
                && (!owned ==>
                      && frames == [Emit(ToSocket(client.id), "error",
                                         HandlerFailed("Failed to mark notification as read", "Notification not found or access denied"))]
                      && events == [] && service.db.notifications == before)
    {
      if !Truthy(client.userId) {
        return Refuse(client.id, "Not authenticated"), [];
      }
      var userId := client.userId.value;
      ghost var before := service.db.notifications;
      if notificationId in before {
        Notifications.ApplyReadEffects(before, notificationId, true, now);
      }
      var r;
      r, events := service.UpdateNotification(notificationId, userId, Some(true), now);
      if r.Success? {
        frames := [Emit(ToSocket(client.id), "notification_marked_read", MarkedRead(notificationId))];
      } else {
        frames := [Emit(ToSocket(client.id), "error", HandlerFailed("Failed to mark notification as read", Common.Message(r.error)))];
      }
    }

    /** get_unread_count. */
    function HandleGetUnreadCount(client: Socket): (frames: seq<NotificationFrame>)
      reads service, service.db
      ensures !Truthy(client.userId) ==> frames == Refuse(client.id, "Not authenticated")
      ensures Truthy(client.userId) ==>
                frames == [Emit(ToSocket(client.id), "unread_count",
                                UnreadCount(Store.UnreadCount(service.db.notifications, client.userId.value)))]
    {
      if !Truthy(client.userId) then Refuse(client.id, "Not authenticated")
      else [Emit(ToSocket(client.id), "unread_count", UnreadCount(UnreadFor(client.userId)))]
    }

    /** getUserConnectionStatus: whether some registered socket belongs to
        the user. */
    method GetUserConnectionStatus(userId: string) returns (online: bool)
      ensures online <==> Online(connectedClients, userId)
    {
      var pending := connectedClients.Keys;
      while pending != {}
        invariant pending <= connectedClients.Keys
        invariant forall id :: id in connectedClients && id !in pending ==> connectedClients[id].userId != Some(userId)
        decreases pending
      {
        var id :| id in pending;
        if connectedClients[id].userId == Some(userId) {
          return true;
        }
        pending := pending - {id};
      }
      online := false;
    }

    function GetConnectedClientsCount(): (n: nat)
      reads this
      ensures n == |connectedClients.Keys|
    {
      |connectedClients|
    }

    /** getConnectedUsersCount: the number of distinct truthy user ids among
        the registered sockets. */
    method GetConnectedUsersCount() returns (n: nat)
      ensures n == |UsersOf(connectedClients, connectedClients.Keys)|
      ensures n <= |connectedClients|
    {
      var users: set<string> := {};
      var pending := connectedClients.Keys;
      while pending != {}
        invariant pending <= connectedClients.Keys
        invariant users == UsersOf(connectedClients, connectedClients.Keys - pending)
        decreases pending
      {
        var id :| id in pending;
        ghost var done := connectedClients.Keys - pending;
        if Truthy(connectedClients[id].userId) {
          users := users + {connectedClients[id].userId.value};
        }
        pending := pending - {id};
        assert connectedClients.Keys - pending == done + {id};
      }
      assert connectedClients.Keys - pending == connectedClients.Keys;
      n := |users|;
      UsersAtMostSockets(connectedClients, connectedClients.Keys);
    }
  }

  /** A creation that inserts a row raises the count the gateway then sends
      its recipient by one. */
  lemma CreatedRaisesUnreadCount(table: Store.NotificationTable, l: LoadedNotification)
    requires l.row.id !in table && !l.row.isRead
    ensures var n := l.row;
            var frames := RouteNotificationEvent(NotificationCreated(l, n.recipientId), Store.UnreadCount(table[n.id := n], n.recipientId));
            frames[1].payload == UnreadCount(Store.UnreadCount(table, n.recipientId) + 1)
  {
    Store.InsertUnreadRaisesCount(table, l.row, l.row.recipientId);
  }
}
