/** The socket transport as seen by the two gateways: the handshake a client
    connects with, the identity its token carries, and the frames a handler
    produces instead of writing to the socket server. */
module Transport {
  import opened Common

  /** The credentials of a connection: auth.token and the Authorization
      header, each absent or a string. */
  datatype Handshake = Handshake(authToken: Option<string>, authorization: Option<string>)

  /** The claims of a verified token: the subject and the username. */
  datatype Claims = Claims(sub: Option<string>, username: Option<string>)

  /** A client socket: its id, its handshake, and the identity recorded on
      it once its token was verified. */
  datatype Socket = Socket(id: string, handshake: Handshake, userId: Option<string>, username: Option<string>)

  datatype Target =
    | ToSocket(socketId: string)
    /** Every socket in the room. */
    | ToRoom(room: string)
    /** Every socket in the room except the sender. */
    | ToRoomExcept(room: string, except: string)
    /** Every connected socket. */
    | ToAll

  /** One effect of a handler on the transport. */
  datatype Frame<P> =
    | Emit(target: Target, event: string, payload: P)
    | Join(socketId: string, room: string)
    | Leave(socketId: string, room: string)
    | Disconnect(socketId: string)

  /** The token of a handshake: a truthy auth.token wins; otherwise the
      Authorization header with its first "Bearer " removed; an empty result
      is no token. */
  function ExtractToken(h: Handshake): (t: Option<string>)
    ensures Truthy(h.authToken) ==> t == h.authToken
    ensures !Truthy(h.authToken) && h.authorization.None? ==> t.None?
    ensures !Truthy(h.authToken) && h.authorization.Some? ==>
              t == (var r := ReplaceFirst(h.authorization.value, "Bearer ", ""); if r == "" then None else Some(r))
    ensures t.Some? ==> t.value != ""
  {
    if Truthy(h.authToken) then h.authToken
    else match h.authorization
      case None => None
      case Some(a) =>
        var r := ReplaceFirst(a, "Bearer ", "");
        if r == "" then None else Some(r)
  }

  /** A bearer header yields exactly the token after the scheme, and a
      header without "Bearer " anywhere in it is taken as the token itself. */
  lemma BearerHeaderToken(token: string, header: string)
    ensures ExtractToken(Handshake(None, Some("Bearer " + token))) == (if token == "" then None else Some(token))
    ensures !Contains(header, "Bearer ") && header != "" ==>
              ExtractToken(Handshake(None, Some(header))) == Some(header)
  {
    var h := "Bearer " + token;
    assert IsPrefix("Bearer ", h);
    ReplaceFirstFacts(h, "Bearer ");
    assert h[|"Bearer "|..] == token;
    ReplaceFirstFacts(header, "Bearer ");
  }

  /** The room of one comment thread. */
  function ThreadRoomName(threadId: string): (r: string)
    ensures |r| == 7 + |threadId| && r[..7] == "thread_" && r[7..] == threadId
  {
    "thread_" + threadId
  }

  /** The private room of a user; an absent user id is rendered by the
      template string as "undefined". */
  function UserRoomName(userId: Option<string>): (r: string)
    ensures |r| >= 5 && r[..5] == "user_"
    ensures userId.Some? ==> r[5..] == userId.value
    ensures userId.None? ==> r == "user_undefined"
  {
    "user_" + userId.GetOr("undefined")
  }

  /** Distinct threads have distinct rooms, and so do distinct users. */
  lemma RoomNamesInjective(a: string, b: string)
    ensures ThreadRoomName(a) == ThreadRoomName(b) ==> a == b
    ensures UserRoomName(Some(a)) == UserRoomName(Some(b)) ==> a == b
  {
  }
}
