/** The comment-threads socket gateway: which users are viewing which
    thread, the join/leave/stats handlers, and the routing of comment events
    to thread rooms. Presence is tracked per user id, not per socket. */
module ThreadsGateway {
  import opened Common
  import opened Transport
  import CommentDto
  import Events
  import Tally

  /** The viewers of one thread and their number. */
  datatype ThreadRoom = ThreadRoom(threadId: string, userCount: nat, users: set<string>)

  type Rooms = map<string, ThreadRoom>

  /** Every tracked room is stored under its thread id, counts its viewers
      exactly and has at least one viewer. */
  predicate RoomsValid(rooms: Rooms) {
    forall t :: t in rooms ==> rooms[t].threadId == t && rooms[t].userCount == |rooms[t].users| && rooms[t].users != {}
  }

  /** The viewers of a thread; an untracked thread has none. */
  function Viewers(rooms: Rooms, threadId: string): set<string> {
    if threadId in rooms then rooms[threadId].users else {}
  }

  /** `threadRooms.get(id)?.userCount || 0`. */
  function UserCount(rooms: Rooms, threadId: string): nat {
    if threadId in rooms then rooms[threadId].userCount else 0
  }

  datatype RoomAction = JoinRoom | LeaveRoom

  /** updateThreadRoom on values: the thread's room (a fresh empty one when
      untracked) gains or loses the user, its count is refreshed, and a room
      left empty is dropped. */
  function UpdateRoom(rooms: Rooms, threadId: string, userId: string, action: RoomAction): (r: Rooms)
    ensures forall t :: t != threadId ==> (t in r <==> t in rooms) && (t in r ==> r[t] == rooms[t])
    ensures threadId in r ==> r[threadId].userCount == |r[threadId].users| && r[threadId].users != {}
    ensures action == JoinRoom ==> Viewers(r, threadId) == Viewers(rooms, threadId) + {userId}
    ensures action == LeaveRoom ==> Viewers(r, threadId) == Viewers(rooms, threadId) - {userId}
  {
    var room := if threadId in rooms then rooms[threadId] else ThreadRoom(threadId, 0, {});
    var users := if action == JoinRoom then room.users + {userId} else room.users - {userId};
    if |users| == 0 then rooms - {threadId}
    else rooms[threadId := room.(users := users, userCount := |users|)]
  }

  lemma UpdateKeepsRoomsValid(rooms: Rooms, threadId: string, userId: string, action: RoomAction)
    requires RoomsValid(rooms)
    ensures RoomsValid(UpdateRoom(rooms, threadId, userId, action))
  {
  }

  /** Joining twice is joining once, and the joiner is then a viewer. */
  lemma JoinIdempotent(rooms: Rooms, threadId: string, userId: string)
    ensures var once := UpdateRoom(rooms, threadId, userId, JoinRoom);
            UpdateRoom(once, threadId, userId, JoinRoom) == once
            && threadId in once && userId in once[threadId].users
  {
    var once := UpdateRoom(rooms, threadId, userId, JoinRoom);
    assert userId in Viewers(once, threadId);
  }

  /** Leaving a thread that is not tracked, or one the user is not viewing,
      changes nothing: the temporary empty room is dropped again. */
  lemma LeaveWhenAbsentIsNoOp(rooms: Rooms, threadId: string, userId: string)
    requires RoomsValid(rooms)
    requires threadId !in rooms || userId !in rooms[threadId].users
    ensures UpdateRoom(rooms, threadId, userId, LeaveRoom) == rooms
  {
    var r := UpdateRoom(rooms, threadId, userId, LeaveRoom);
    if threadId in rooms {
      assert rooms[threadId].users - {userId} == rooms[threadId].users;
      assert r[threadId] == rooms[threadId];
    }
  }

  /** The rooms after a user has left every thread they were viewing, where
      only the threads in done have been visited so far. */
  function WithoutUserOn(rooms: Rooms, userId: string, done: set<string>): Rooms {
    map t | t in rooms && (t !in done || rooms[t].users != {userId})
      :: if t in done && userId in rooms[t].users
         then rooms[t].(users := rooms[t].users - {userId}, userCount := |rooms[t].users - {userId}|)
         else rooms[t]
  }

  /** The rooms after a user has left every thread. */
  function WithoutUser(rooms: Rooms, userId: string): (r: Rooms)
    ensures forall t :: t in r ==> userId !in r[t].users
    ensures forall t :: t in rooms && userId !in rooms[t].users ==> t in r && r[t] == rooms[t]
    ensures forall t :: t in r ==> t in rooms && r[t].users == rooms[t].users - {userId}
  {
    WithoutUserOn(rooms, userId, rooms.Keys)
  }

  lemma WithoutUserKeepsRoomsValid(rooms: Rooms, userId: string)
    requires RoomsValid(rooms)
    ensures RoomsValid(WithoutUser(rooms, userId))
  {
  }

  /** Visiting one more thread in leaveAllThreads: the user leaves it when
      viewing it. */
  lemma WithoutUserStep(rooms: Rooms, userId: string, done: set<string>, t: string)
    requires t in rooms && t !in done
    ensures var before := WithoutUserOn(rooms, userId, done);
            (if userId in rooms[t].users then UpdateRoom(before, t, userId, LeaveRoom) else before)
            == WithoutUserOn(rooms, userId, done + {t})
  {
    if userId in rooms[t].users {
      LeaveVisitedRoom(rooms, userId, done, t);
    } else {
      SkipUnviewedRoom(rooms, userId, done, t);
    }
  }

  lemma LeaveVisitedRoom(rooms: Rooms, userId: string, done: set<string>, t: string)
    requires t in rooms && t !in done && userId in rooms[t].users
    ensures UpdateRoom(WithoutUserOn(rooms, userId, done), t, userId, LeaveRoom) == WithoutUserOn(rooms, userId, done + {t})
  {
    var before := WithoutUserOn(rooms, userId, done);
    var after := WithoutUserOn(rooms, userId, done + {t});
    assert t in before && before[t] == rooms[t];
    var users := rooms[t].users - {userId};
    if users == {} {
      assert rooms[t].users == {userId};
      assert after == before - {t};
    } else {
      assert after == before[t := rooms[t].(users := users, userCount := |users|)];
    }
  }

  lemma SkipUnviewedRoom(rooms: Rooms, userId: string, done: set<string>, t: string)
    requires t in rooms && t !in done && userId !in rooms[t].users
    ensures WithoutUserOn(rooms, userId, done) == WithoutUserOn(rooms, userId, done + {t})
  {
    var before := WithoutUserOn(rooms, userId, done);
    var after := WithoutUserOn(rooms, userId, done + {t});
    assert rooms[t].users != {userId};
    assert forall k :: (k in before <==> k in after) && (k in before ==> before[k] == after[k]);
  }

  /** What a handler sends. Timestamps are not modelled. */
  datatype ThreadPayload =
    | Connected(message: string, userId: Option<string>)
    | Error(message: string)
    | HandlerFailed(message: string, error: string)
    /** thread-joined, thread-left, thread-user-joined, thread-user-left and
        thread-stats: a thread and its viewer count. */
    | RoomCount(threadId: string, userCount: nat)
    | NewReply(reply: CommentDto.CommentResponse, threadId: string)
    | ReplyCount(commentId: string, count: int, totalReplies: int)
    | Edited(id: string, updatedText: string, updatedAt: int)
    | DeletedComment(id: string)

  type ThreadFrame = Frame<ThreadPayload>

  function NotAuthenticated(client: Socket): ThreadFrame {
    Emit(ToSocket(client.id), "error", Error("Not authenticated"))
  }

  /** The notice to the other viewers of a thread that a user left it while
      leaving every thread; the count is that of the room after the user
      left. */
  function LeftNotice(rooms: Rooms, t: string, userId: string, socketId: string): ThreadFrame
    requires t in rooms
  {
    Emit(ToRoomExcept(ThreadRoomName(t), socketId), "thread-user-left", RoomCount(t, |rooms[t].users - {userId}|))
  }

  /** The notices sent while leaving every thread, once the threads in
      done have been visited: one per visited thread the user was viewing,
      each thread once, in the order listed. */
  ghost predicate NoticesSent(rooms: Rooms, userId: string, socketId: string, done: set<string>,
                              frames: seq<ThreadFrame>, order: seq<string>)
  {
    && (forall t :: t in order <==> t in done && t in rooms && userId in rooms[t].users)
    && (forall i, j :: 0 <= i < j < |order| ==> order[i] != order[j])
    && |frames| == |order|
    && (forall i :: 0 <= i < |order| ==> order[i] in rooms && frames[i] == LeftNotice(rooms, order[i], userId, socketId))
  }

  lemma NoticesStep(rooms: Rooms, userId: string, socketId: string, done: set<string>,
                    frames: seq<ThreadFrame>, order: seq<string>, t: string)
    requires t in rooms && t !in done
    requires NoticesSent(rooms, userId, socketId, done, frames, order)
    ensures userId in rooms[t].users ==>
              NoticesSent(rooms, userId, socketId, done + {t},
                          frames + [LeftNotice(rooms, t, userId, socketId)], order + [t])
    ensures userId !in rooms[t].users ==> NoticesSent(rooms, userId, socketId, done + {t}, frames, order)
  {
  }

  /** The routing of a comment event: the rooms of the threads the event
      concerns, with the event's client-side name. */
  function RouteCommentEvent(e: Events.CommentEvent): (frames: seq<ThreadFrame>)
    ensures forall f :: f in frames ==> f.Emit? && f.target.ToRoom?
    ensures e.CommentCreated? ==>
              (|frames| == 1 <==> Truthy(e.parentId)) && |frames| <= 1
              && forall f :: f in frames ==> f.target.room == ThreadRoomName(e.parentId.value) && f.event == "new-reply"
    ensures e.ReplyCountUpdated? ==>
              frames == [Emit(ToRoom(ThreadRoomName(e.commentId)), "reply-count-updated",
                              ReplyCount(e.commentId, e.replyCount, e.totalReplies))]
    ensures e.CommentUpdated? ==>
              && 1 <= |frames| <= 2 && frames[0].target.room == ThreadRoomName(e.comment.id)
              && (|frames| == 2 <==> e.comment.parent.Some? && e.comment.parent.value.id != "")
              && (|frames| == 2 ==> frames[1].target.room == ThreadRoomName(e.comment.parent.value.id))
              && forall f :: f in frames ==>
                   (f.event == "comment-edited" && f.payload == Edited(e.comment.id, e.comment.text, e.comment.updatedAt))
    ensures e.CommentDeleted? ==>
              && 1 <= |frames| <= 2 && frames[0].target.room == ThreadRoomName(e.commentId)
              && (|frames| == 2 <==> Truthy(e.parentId))
              && (|frames| == 2 ==> frames[1].target.room == ThreadRoomName(e.parentId.value))
              && forall f :: f in frames ==> (f.event == "comment-deleted" && f.payload == DeletedComment(e.commentId))
  {
    match e
    case CommentCreated(comment, parentId) =>
      if Truthy(parentId) then
        [Emit(ToRoom(ThreadRoomName(parentId.value)), "new-reply", NewReply(comment, parentId.value))]
      else []
    case ReplyCountUpdated(commentId, replyCount, totalReplies) =>
      [Emit(ToRoom(ThreadRoomName(commentId)), "reply-count-updated", ReplyCount(commentId, replyCount, totalReplies))]
    case CommentUpdated(comment) =>
      var edited := Edited(comment.id, comment.text, comment.updatedAt);
      [Emit(ToRoom(ThreadRoomName(comment.id)), "comment-edited", edited)]
      + (if comment.parent.Some? && comment.parent.value.id != ""
         then [Emit(ToRoom(ThreadRoomName(comment.parent.value.id)), "comment-edited", edited)]
         else [])
    case CommentDeleted(commentId, parentId) =>
      [Emit(ToRoom(ThreadRoomName(commentId)), "comment-deleted", DeletedComment(commentId))]
      + (if Truthy(parentId)
         then [Emit(ToRoom(ThreadRoomName(parentId.value)), "comment-deleted", DeletedComment(commentId))]
         else [])
  }

  /** The viewer counts of the tracked rooms. */
  function Counts(rooms: Rooms): (m: map<string, int>)
    ensures m.Keys == rooms.Keys
  {
    map t | t in rooms :: rooms[t].userCount
  }

  /** With valid rooms every tracked thread has a viewer, so the viewers
      total at least the number of active threads, and none exactly when no
      thread is active. */
  lemma ViewersAtLeastThreads(rooms: Rooms)
    requires RoomsValid(rooms)
    ensures Tally.Sum(Counts(rooms)) >= |rooms|
    ensures Tally.Sum(Counts(rooms)) == 0 <==> rooms == map[]
  {
    var m := Counts(rooms);
    Tally.SumOverAtLeast(m, m.Keys, 1);
    assert |m.Keys| == |rooms|;
    if rooms != map[] {
      var t :| t in rooms;
      assert t in rooms.Keys;
    }
  }

  /** Presence is per user: when a user has two sockets viewing a thread,
      disconnecting one of them removes the user from the thread while the
      other socket is still connected and subscribed to the room. */
  lemma PresenceIsPerUser()
    ensures var s1 := Socket("s1", Handshake(Some("tok"), None), Some("u"), Some("alice"));
            var s2 := Socket("s2", Handshake(Some("tok"), None), Some("u"), Some("alice"));
            var rooms := map["t" := ThreadRoom("t", 1, {"u"})];
            var clients := map["s1" := s1, "s2" := s2];
            && RoomsValid(rooms)
            && "s2" in clients - {"s1"} && (clients - {"s1"})["s2"].userId == Some("u")
            && WithoutUser(rooms, "u") == map[]
  {
    var rooms := map["t" := ThreadRoom("t", 1, {"u"})];
    assert rooms["t"].users == {"u"};
    assert WithoutUser(rooms, "u").Keys == {};
  }

  class CommentThreadsGateway {
    var connectedClients: map<string, Socket>
    var threadRooms: Rooms

    ghost predicate Valid()
      reads this
    {
      && RoomsValid(threadRooms)
      && (forall id :: id in connectedClients ==> connectedClients[id].id == id)
    }

    constructor ()
      ensures Valid() && connectedClients == map[] && threadRooms == map[]
    {
      connectedClients := map[];
      threadRooms := map[];
    }

    /** Connection: a client without a token, or whose token does not
        verify, is disconnected; otherwise the claims are recorded on the
        socket, the socket is registered and greeted. */
    method HandleConnection(client: Socket, verify: string -> Option<Claims>) returns (socket: Socket, frames: seq<ThreadFrame>)
      requires Valid()
      modifies this
      ensures Valid() && threadRooms == old(threadRooms)
      ensures var token := ExtractToken(client.handshake);
              if token.None? || verify(token.value).None? then
                socket == client && connectedClients == old(connectedClients) && frames == [Disconnect(client.id)]
              else
                var claims := verify(token.value).value;
                && socket == client.(userId := claims.sub, username := claims.username)
                && connectedClients == old(connectedClients)[client.id := socket]
                && frames == [Emit(ToSocket(client.id), "connected", Connected("Connected to comment threads", claims.sub))]
    {
      var token := ExtractToken(client.handshake);
      if token.None? {
        return client, [Disconnect(client.id)];
      }
      var claims := verify(token.value);
      if claims.None? {
        return client, [Disconnect(client.id)];
      }
      socket := client.(userId := claims.value.sub, username := claims.value.username);
      connectedClients := connectedClients[client.id := socket];
      frames := [Emit(ToSocket(client.id), "connected", Connected("Connected to comment threads", socket.userId))];
    }

    /** Disconnection: the user leaves every thread, then the socket is
        unregistered. */
    method HandleDisconnect(client: Socket) returns (frames: seq<ThreadFrame>)
      requires Valid()
      modifies this
      ensures Valid()
      ensures connectedClients == old(connectedClients) - {client.id}
      ensures Truthy(client.userId) ==> threadRooms == WithoutUser(old(threadRooms), client.userId.value)
      ensures Truthy(client.userId) ==>
                exists order :: NoticesSent(old(threadRooms), client.userId.value, client.id, old(threadRooms).Keys, frames, order)
      ensures !Truthy(client.userId) ==> threadRooms == old(threadRooms) && frames == []
    {
      ghost var order;
      frames, order := LeaveAllThreads(client);
      connectedClients := connectedClients - {client.id};
    }

    /** updateThreadRoom. */
    method UpdateThreadRoom(threadId: string, userId: string, action: RoomAction)
      modifies this
      ensures threadRooms == UpdateRoom(old(threadRooms), threadId, userId, action)
      ensures connectedClients == old(connectedClients)
    {
      var room := if threadId in threadRooms then threadRooms[threadId] else ThreadRoom(threadId, 0, {});
      if threadId !in threadRooms {
        threadRooms := threadRooms[threadId := room];
      }
      var users := if action == JoinRoom then room.users + {userId} else room.users - {userId};
      room := room.(users := users, userCount := |users|);
      threadRooms := threadRooms[threadId := room];
      if room.userCount == 0 {
        threadRooms := threadRooms - {threadId};
      }
    }

    /** leaveAllThreads: for every tracked thread the user is viewing, the
        user leaves it and its other viewers are told. The notices go out in
        the map's iteration order, which the model leaves open: order lists
        the threads left, each once, in the order their notices were sent. */
    method LeaveAllThreads(client: Socket) returns (frames: seq<ThreadFrame>, ghost order: seq<string>)
      requires Valid()
      modifies this
      ensures Valid() && connectedClients == old(connectedClients)
      ensures !Truthy(client.userId) ==> threadRooms == old(threadRooms) && frames == []
      ensures Truthy(client.userId) ==>
                && threadRooms == WithoutUser(old(threadRooms), client.userId.value)
                && NoticesSent(old(threadRooms), client.userId.value, client.id, old(threadRooms).Keys, frames, order)
    {
      frames := [];
      order := [];
      if !Truthy(client.userId) {
        return;
      }
      var userId := client.userId.value;
      ghost var rooms := threadRooms;
      var pending := threadRooms.Keys;
      ghost var done: set<string> := {};
      assert WithoutUserOn(rooms, userId, {}) == rooms;
      while pending != {}
        invariant pending !! done && pending + done == rooms.Keys
        invariant threadRooms == WithoutUserOn(rooms, userId, done)
        invariant connectedClients == old(connectedClients)
        invariant NoticesSent(rooms, userId, client.id, done, frames, order)
        decreases pending
      {
        var t :| t in pending;
        WithoutUserStep(rooms, userId, done, t);
        var room := threadRooms[t];
        assert room == rooms[t];
        NoticesStep(rooms, userId, client.id, done, frames, order, t);
        if userId in room.users {
          UpdateThreadRoom(t, userId, LeaveRoom);
          // the notice reads the count of the room object just updated
          frames := frames + [Emit(ToRoomExcept(ThreadRoomName(t), client.id), "thread-user-left",
                                   RoomCount(t, |room.users - {userId}|))];
          order := order + [t];
        }
        pending := pending - {t};
        done := done + {t};
      }
      WithoutUserKeepsRoomsValid(rooms, userId);
    }

    /** join-thread. The thread is the outcome of looking the comment up,
        which fails for a missing or deleted comment; a found thread is
        never empty, so the 'Thread not found' reply cannot be sent. */
    method HandleJoinThread(client: Socket, threadId: string, thread: Result<CommentDto.CommentResponse>)
      returns (frames: seq<ThreadFrame>)
      requires Valid()
      modifies this
      ensures Valid() && connectedClients == old(connectedClients)
      ensures !Truthy(client.userId) ==> threadRooms == old(threadRooms) && frames == [NotAuthenticated(client)]
      ensures Truthy(client.userId) && thread.Failure? ==>
                threadRooms == old(threadRooms)
                && frames == [Emit(ToSocket(client.id), "error", HandlerFailed("Failed to join thread", Message(thread.error)))]
      ensures Truthy(client.userId) && thread.Success? ==>
                && threadRooms == UpdateRoom(old(threadRooms), threadId, client.userId.value, JoinRoom)
                && threadId in threadRooms && client.userId.value in threadRooms[threadId].users
                && var count := |threadRooms[threadId].users|;
                   frames == [Join(client.id, ThreadRoomName(threadId)),
                              Emit(ToSocket(client.id), "thread-joined", RoomCount(threadId, count)),
                              Emit(ToRoomExcept(ThreadRoomName(threadId), client.id), "thread-user-joined", RoomCount(threadId, count))]
    {
      if !Truthy(client.userId) {
        return [NotAuthenticated(client)];
      }
      if thread.Failure? {
        return [Emit(ToSocket(client.id), "error", HandlerFailed("Failed to join thread", Message(thread.error)))];
      }
      var room := ThreadRoomName(threadId);
      frames := [Join(client.id, room)];
      UpdateKeepsRoomsValid(threadRooms, threadId, client.userId.value, JoinRoom);
      UpdateThreadRoom(threadId, client.userId.value, JoinRoom);
      assert client.userId.value in Viewers(threadRooms, threadId);
      var count := UserCount(threadRooms, threadId);
      frames := frames + [Emit(ToSocket(client.id), "thread-joined", RoomCount(threadId, count)),
                          Emit(ToRoomExcept(room, client.id), "thread-user-joined", RoomCount(threadId, count))];
    }

    /** leave-thread: nothing in it can fail, so its 'Failed to leave
        thread' reply cannot be sent. */
    method HandleLeaveThread(client: Socket, threadId: string) returns (frames: seq<ThreadFrame>)
      requires Valid()
      modifies this
      ensures Valid() && connectedClients == old(connectedClients)
      ensures !Truthy(client.userId) ==> threadRooms == old(threadRooms) && frames == [NotAuthenticated(client)]
      ensures Truthy(client.userId) ==>
                && threadRooms == UpdateRoom(old(threadRooms), threadId, client.userId.value, LeaveRoom)
                && (threadId in threadRooms ==> client.userId.value !in threadRooms[threadId].users)
                && var count := UserCount(threadRooms, threadId);
                   frames == [Leave(client.id, ThreadRoomName(threadId)),
                              Emit(ToSocket(client.id), "thread-left", RoomCount(threadId, count)),
                              Emit(ToRoomExcept(ThreadRoomName(threadId), client.id), "thread-user-left", RoomCount(threadId, count))]
    {
      if !Truthy(client.userId) {
        return [NotAuthenticated(client)];
      }
      var room := ThreadRoomName(threadId);
      frames := [Leave(client.id, room)];
      UpdateKeepsRoomsValid(threadRooms, threadId, client.userId.value, LeaveRoom);
      UpdateThreadRoom(threadId, client.userId.value, LeaveRoom);
      assert client.userId.value !in Viewers(threadRooms, threadId);
      var count := UserCount(threadRooms, threadId);
      frames := frames + [Emit(ToSocket(client.id), "thread-left", RoomCount(threadId, count)),
                          Emit(ToRoomExcept(room, client.id), "thread-user-left", RoomCount(threadId, count))];
    }

    /** get-thread-stats: the viewer count of one thread, to the asker only. */
    method HandleGetThreadStats(client: Socket, threadId: string) returns (frames: seq<ThreadFrame>)
      requires Valid()
      ensures !Truthy(client.userId) ==> frames == [NotAuthenticated(client)]
      ensures Truthy(client.userId) ==>
                frames == [Emit(ToSocket(client.id), "thread-stats", RoomCount(threadId, |Viewers(threadRooms, threadId)|))]
    {
      if !Truthy(client.userId) {
        return [NotAuthenticated(client)];
      }
      frames := [Emit(ToSocket(client.id), "thread-stats", RoomCount(threadId, GetThreadUserCount(threadId)))];
    }

    /** getThreadUserCount: the viewers of a thread, 0 when untracked. */
    function GetThreadUserCount(threadId: string): (n: nat)
      reads this
      ensures Valid() ==> n == |Viewers(threadRooms, threadId)|
      ensures Valid() ==> (n == 0 <==> threadId !in threadRooms)
    {
      UserCount(threadRooms, threadId)
    }

    function GetConnectedClientsCount(): (n: nat)
      reads this
      ensures n == |connectedClients.Keys|
    {
      |connectedClients|
    }

    function GetActiveThreadsCount(): (n: nat)
      reads this
      ensures n == |threadRooms.Keys|
    {
      |threadRooms|
    }

    /** getTotalThreadViewers: the viewer counts of all rooms added up. */
    method GetTotalThreadViewers() returns (total: int)
      requires Valid()
      ensures total == Tally.Sum(Counts(threadRooms))
      ensures total >= GetActiveThreadsCount()
    {
      var counts := Counts(threadRooms);
      total := 0;
      var rest := threadRooms.Keys;
      while rest != {}
        invariant rest <= counts.Keys
        invariant total + Tally.SumOver(counts, rest) == Tally.Sum(counts)
        decreases rest
      {
        var t :| t in rest;
        Tally.SumOverRemove(counts, rest, t);
        total := total + threadRooms[t].userCount;
        rest := rest - {t};
      }
      ViewersAtLeastThreads(threadRooms);
    }
  }
}
