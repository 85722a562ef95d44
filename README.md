# Forum backend core in Dafny

This project models the core of a NestJS forum backend. Users post threaded
comments, are notified of replies and mentions, and watch threads live over
websockets. The model covers these parts:

- **Websocket throttler** (`WsThrottler`). It is a class with three maps:
  - connection attempts;
  - message counts;
  - open connections per user.

  `CheckLimit` is proved against the pure admission function `Admit`. The
  lemmas about `Admit` give:
  - at most `limit` admitted calls per key per window;
  - a rejected call changes nothing;
  - each call touches only its own key.

  `Cleanup` is proved to drop exactly the expired and the zero entries.
- **Comment-thread gateway** (`ThreadsGateway`). The room registry and the
  socket registry are class fields. Joining and leaving are proved to keep
  every room's user count equal to its member count and to leave no empty
  room. A disconnect removes the user from every room and sends one
  `thread-user-left` notice per room left. Comment events are routed to
  `thread_<id>` rooms.
- **Notifications gateway** (`NotificationsGateway`):
  - the connection registry;
  - the per-user rooms `user_<id>`;
  - the access check of `join_notifications`;
  - the two frames sent per notification event;
  - the online and connected-user counts, computed by loops and proved
    against the registry.
- **Comments service** (`CommentsService`):
  - Creating a reply bumps the parent's `replyCount` and `totalReplies`, and
    every strict ancestor's `totalReplies`. Soft deletion undoes this.
  - The author's `commentCount` moves with both.
  - The counters are proved to stay equal to the live reply structure of the
    comment forest (`CommentTree.Consistent`).
  - The guards run in order, and the stats cache lives for 5 minutes.
- **Notification service** (`Notifications`):
  - the four creation checks;
  - the duplicate merge within 5 minutes, with SQL `NULL` comparison;
  - reply and mention notification texts;
  - mark read;
  - the four bulk operations, in their fixed order;
  - the mapping of database error codes.
- **Users service** (`UsersService`):
  - the username conflict rule;
  - the order of the password-change checks;
  - account anonymisation;
  - the filters, sort and paging of a user's comments;
  - the 10-minute stats cache.
- **Throttle exception filter** (`ThrottleFilter`). It classifies the URL and
  method into a message and a delay, formats the delay (`formatRetryAfter`),
  and builds the 429 response.
- **DTOs** (`CommentDto`, `NotificationDto`, `UserProfileDto`). These are the
  field transforms:
  - masking of deleted comments;
  - parent previews cut to 100 characters;
  - the notification `actions` flags and the 30-day expiry;
  - `daysSinceJoined`;
  - the excluded fields.
- **No-whitespace validator** (`NoWhitespace`). A value is valid iff it holds
  a non-whitespace character.

The shared database is one `Store.Database` object with `users`, `comments`
and `notifications` maps. A ghost rank witnesses that parent links form a
forest. Socket.io effects are the returned frame lists of `Transport`: emits to
a socket or a room, joins, leaves and disconnects.

Values the program gets from outside are parameters of the model:
- the clock (`now`, in milliseconds);
- JWT verification (`verify`);
- the bcrypt comparison (`matches`) and the new hash;
- the SQL aggregate figures of the stats endpoints.

Three behaviours of the code are kept as written and flagged by lemmas:
- `ThreadsGateway.PresenceIsPerUser`: presence in thread rooms is per user.
  Closing one of a user's sockets drops the user from every room, even while
  another of their sockets is still connected.
- `CommentTree.AnonymiseBreaksCounters`: account deletion soft-deletes the
  user's comments without lowering the reply counters of their ancestors.
- `NotificationsGateway.RelayCarriesSenderRow`: `notification.created` and
  `notification.updated` carry the notification with its joined relations
  as whole user and comment rows. The gateway relays them unchanged, so the
  sender's `passwordHash` reaches the recipient's sockets. The notification
  response transform passes `fromUser` through in the same way
  (`NotificationDto.ToResponse`).

## Model

| member | source | states |
|---|---|---|
| WsThrottler.RejectLeavesStoreUnchanged | src/config/websocket-throttler.ts:84-86 | a call on a live entry whose count has reached the limit is refused and leaves the store as it was |
| WsThrottler.FreshWindow | src/config/websocket-throttler.ts:75-82 | a missing key or a window with now > resetTime is admitted even when the limit is 0, with count 1 and resetTime now + ttl; a window is still live at now == resetTime |
| WsThrottler.OnlyOwnKey | src/config/websocket-throttler.ts:66-90 | admission changes only the entry of its own key |
| WsThrottler.AdmitKeepsWithinLimit | src/config/websocket-throttler.ts:84-89 | for limit ≥ 1, the count of a live entry never exceeds the limit |
| WsThrottler.BurstInLiveWindow | src/config/websocket-throttler.ts:84-89 | while one window stays live, of n calls exactly min(n, limit − count) are admitted, the count grows by that many and the reset time stays |
| WsThrottler.AtMostLimitPerWindow | src/config/websocket-throttler.ts:66-90 | a run of calls within one window admits exactly min(number of calls, limit) of them |
| WsThrottler.SweepIsInvisible | src/config/websocket-throttler.ts:98-108 | removing expired rate entries never changes the outcome of a later check |
| WsThrottler.AddConnectionRaisesByOne | src/config/websocket-throttler.ts:48-51 | adding a connection raises that user's count by exactly 1 (absent counts as 0) and leaves the others alone |
| WsThrottler.RemoveConnectionNeverNegative | src/config/websocket-throttler.ts:56-61 | removal lowers a positive count by 1 and otherwise changes nothing, keeps every entry (a zero one too), never goes negative, and lowers the total accordingly |
| WsThrottler.DropZeroIsInvisible | src/config/websocket-throttler.ts:110-115 | dropping zero-count users changes no user's connection count and not the total |
| WsThrottler.RateLimitStore.constructor | src/config/websocket-throttler.ts:11-13 | a new rate store is empty |
| WsThrottler.WebSocketThrottler.constructor | src/config/websocket-throttler.ts:11-13 | the three maps start empty |
| WsThrottler.WebSocketThrottler.CheckLimit | src/config/websocket-throttler.ts:66-90 | the answer and the new store are those of Admit on the old store |
| WsThrottler.WebSocketThrottler.CheckConnectionLimit | src/config/websocket-throttler.ts:18-24 | admits key "conn:" + ip against the connection-attempt store with the configured limit and ttl |
| WsThrottler.WebSocketThrottler.CheckMessageLimit | src/config/websocket-throttler.ts:29-35 | admits key "msg:" + userId against the message store with the configured limit and ttl |
| WsThrottler.WebSocketThrottler.CheckUserConnectionLimit | src/config/websocket-throttler.ts:40-43 | true iff the user's open connections (absent = 0) are fewer than 5; nothing changes |
| WsThrottler.WebSocketThrottler.AddConnection | src/config/websocket-throttler.ts:48-51 | the connection map becomes WithConnection of the old one |
| WsThrottler.WebSocketThrottler.RemoveConnection | src/config/websocket-throttler.ts:56-61 | the connection map becomes WithoutConnection of the old one |
| WsThrottler.WebSocketThrottler.SweepStore | src/config/websocket-throttler.ts:98-108 | the loop deletes exactly the entries with now > resetTime |
| WsThrottler.WebSocketThrottler.Cleanup | src/config/websocket-throttler.ts:95-116 | both rate stores are swept and the zero-count users dropped; every other entry is unchanged |
| WsThrottler.WebSocketThrottler.GetStats | src/config/websocket-throttler.ts:121-128 | the three map sizes, and total connections equal to the sum of all per-user counts |
| ThrottleFilter.Classify | src/common/filters/throttler-exception.filter.ts:16-40 | one clause per rule, each under the negation of the earlier rules: '/auth/login' gives the login message and 900 s; '/auth/register' the registration message and 900 s; '/comments' with POST 120 s and with PUT 180 s; '/users/profile' with PUT 360 s; '/users/password' with any method 1200 s; '/notifications' with POST 72 s, each with its own message; the default 'Too many requests'/60 s applies iff no rule matches |
| ThrottleFilter.FirstMatchPicksEarliest | src/common/filters/throttler-exception.filter.ts:19-39 | a rule-table lookup returns the throttle of rule i exactly when rule i matches and no earlier rule does |
| ThrottleFilter.FirstMatchDefault | src/common/filters/throttler-exception.filter.ts:16-17 | a lookup in which no rule matches gives the default 'Too many requests'/60 s |
| ThrottleFilter.ClassifyIsFirstMatch | src/common/filters/throttler-exception.filter.ts:19-39 | the filter's if-chain equals the first-match lookup of its seven-rule table, so a URL matching several fragments gets the earliest rule |
| ThrottleFilter.SingularExactlyAtOneUnit | src/common/filters/throttler-exception.filter.ts:58-68 | below a minute always '<s> seconds'; '1 minute' exactly at 60 seconds and '1 hour' exactly at 3600 seconds, plural otherwise |
| ThrottleFilter.RuleDelaysInWords | src/common/filters/throttler-exception.filter.ts:61-63 | 72 seconds reads "2 minutes" and 900 reads "15 minutes" |
| ThrottleFilter.Catch | src/common/filters/throttler-exception.filter.ts:42-55 | status 429, error 'Too Many Requests', path = url, the rule's message and delay, a Retry-After header equal to the delay, and the "Please wait … before trying again." hint |
| ThrottleFilter.HintsAreInMinutes | src/common/filters/throttler-exception.filter.ts:49 | every rule's delay lies in [60, 3600), so every hint reads '<ceil(s/60)> minute', plural above 60 seconds |
| NoWhitespace.TrimStart | src/utils/no-whitespace.validator.ts:7 | the result is a suffix of the input, what it drops is all whitespace, and it does not start with whitespace |
| NoWhitespace.TrimEnd | src/utils/no-whitespace.validator.ts:7 | the result is a prefix of the input, what it drops is all whitespace, and it does not end with whitespace |
| NoWhitespace.ValidIffHasNonWhitespace | src/utils/no-whitespace.validator.ts:6-8 | validation passes iff the value contains a non-whitespace character |
| NoWhitespace.WhitespaceOnlyRejected | src/utils/no-whitespace.validator.ts:7 | the empty string and all-whitespace strings are rejected |
| NoWhitespace.PaddingIrrelevant | src/utils/no-whitespace.validator.ts:7 | surrounding whitespace never changes the verdict |
| NoWhitespace.TrimIdempotent | src/utils/no-whitespace.validator.ts:7 | trimming twice equals trimming once, and validating the trimmed value gives the same verdict |
| CommentDto.ResponseText | src/modules/comments/dto/comment-response.dto.ts:7-9 | '[deleted]' for a deleted comment, else its text |
| CommentDto.ResponseUserAsWritten | src/modules/comments/dto/comment-response.dto.ts:33-36 | the author transform as written: null when deleted, else the whole loaded user row |
| CommentDto.AuthorTransformLeaksPasswordHash | src/modules/comments/dto/comment-response.dto.ts:35 | a live comment's response carries its author's password hash under the as-written transform |
| CommentDto.ResponseUser | src/modules/comments/dto/comment-response.dto.ts:60-76 | null when deleted, else only id, username and commentCount of the author |
| CommentDto.ParentSummary | src/modules/comments/dto/comment-response.dto.ts:38-51 | parent text kept when its JavaScript length (UTF-16 code units) is at most 100, else cut to its longest prefix within 100 code units plus '...' (never over 103 characters); parent user reduced to id and username |
| CommentDto.ToResponse | src/modules/comments/dto/comment-response.dto.ts:7-56 | id and deleted flag copied, a parent summary iff the source has a parent, replies only when loaded and then one per source reply |
| CommentDto.ResponsesAreMasked | src/modules/comments/dto/comment-response.dto.ts:53-56 | every deleted comment at any depth of the response tree shows '[deleted]' and no author |
| CommentDto.ResponseMirrorsSource | src/modules/comments/dto/comment-response.dto.ts:53-56 | at every depth the response has the source's id, deleted flag, counters and number of replies, and a live comment keeps its text |
| NotificationDto.CommentText | src/modules/notifications/dto/notification-response.dto.ts:17 | an absent text becomes 'undefined'; text of at most 100 UTF-16 code units is unchanged; longer text is cut to its longest prefix within 100 code units plus '...' |
| NotificationDto.ActionsFor | src/modules/notifications/dto/notification-response.dto.ts:65-75 | canMarkAsRead == !isRead and canDelete is always true |
| NotificationDto.ExpiredIffOlderThanThirtyDays | src/modules/notifications/dto/notification-response.dto.ts:69 | expired iff createdAt is present and strictly older than 2,592,000,000 ms |
| NotificationDto.ExpiryIsMonotone | src/modules/notifications/dto/notification-response.dto.ts:69 | once expired, a notification stays expired as time goes on |
| NotificationDto.ToResponse | src/modules/notifications/dto/notification-response.dto.ts:25-76 | fields copied, relations passed through, and the action flags consistent with isRead and the expiry rule |
| UserProfileDto.DaysSinceJoined | src/modules/users/dto/user-profile-response.dto.ts:24-32 | the least d with d days ≥ the distance between now and createdAt |
| UserProfileDto.DaysSinceJoinedSmall | src/modules/users/dto/user-profile-response.dto.ts:24-32 | 0 iff now == createdAt, and 1 for any positive distance up to one day |
| UserProfileDto.DaysSinceJoinedSymmetric | src/modules/users/dto/user-profile-response.dto.ts:57-63 | a future createdAt gives the same value as the same distance in the past |
| UserProfileDto.DaysSinceJoinedGrows | src/modules/users/dto/user-profile-response.dto.ts:24-32 | for a past createdAt, the value never decreases with time |
| UserProfileDto.ToProfile | src/modules/users/dto/user-profile-response.dto.ts:3-39 | the private profile copies the exposed fields (not passwordHash or email) and adds daysSinceJoined |
| UserProfileDto.ToPublicProfile | src/modules/users/dto/user-profile-response.dto.ts:42-75 | the public profile has id, username, commentCount, createdAt and daysSinceJoined only |
| UserProfileDto.PublicProfileIsRestriction | src/modules/users/dto/user-profile-response.dto.ts:66-74 | the public profile agrees with the private one on every field it keeps |
| Pagination.ListWindow | src/modules/comments/comments.service.ts:157-159 | page defaults to 1, limit to 20 capped at 100, offset (page − 1) · limit |
| Pagination.NextPageIffRowsRemain | src/modules/comments/comments.service.ts:202-210 | hasNextPage iff rows remain after this page; totalPages is the ceiling of totalItems / limit |
| Pagination.PageOf | src/modules/comments/comments.service.ts:180-186 | skip/take returns the rows from the offset on, at most take of them, in order |
| Pagination.ListPagesAdjacent | src/modules/comments/comments.service.ts:157-159 | consecutive pages start exactly one limit apart |
| Pagination.ReplyWindow | src/modules/comments/comments.service.ts:553-558 | replies take min(limit, 50), but the offset uses the unclamped limit |
| Pagination.ReplyPagesGapAbove50 | src/modules/comments/comments.service.ts:553-558 | with a limit over 50, page 2 starts past the end of page 1 and skips rows; true of findReplies as written, though HTTP requests cannot reach it because the reply query caps limit at 50 |
| Pagination.CommentsOrder | src/modules/comments/comments.service.ts:176-177 | createdAt ascending iff sortBy is 'oldest', else descending |
| Pagination.UserCommentsOrder | src/modules/users/users.service.ts:307-318 | 'most_replies' sorts by totalReplies, 'oldest' by createdAt ascending, anything else by createdAt descending |
| Transport.ExtractToken | src/modules/comments/comments-threads.gateway.ts:100-104 | a truthy auth token wins; otherwise the authorization header with its first 'Bearer ' removed, or none if that is empty |
| Transport.BearerHeaderToken | src/modules/comments/comments-threads.gateway.ts:101-103 | a header "Bearer t" without auth token yields t (none for empty t); a non-empty header without "Bearer " is taken whole |
| Transport.ThreadRoomName | src/modules/comments/comments-threads.gateway.ts:123 | "thread_" followed by the thread id |
| Transport.UserRoomName | src/modules/notifications/notifications.gateway.ts:64 | "user_" followed by the user id ("user_undefined" for a missing id) |
| Transport.RoomNamesInjective | src/modules/notifications/notifications.gateway.ts:64 | different thread ids give different thread rooms, and different user ids different user rooms |
| Store.MarkReadLowersUnread | src/modules/notifications/notification.service.ts:663-673 | marking an unread notification read lowers its recipient's unread count by one and no one else's |
| Store.InsertUnreadRaisesCount | src/modules/notifications/notification.service.ts:86-100 | storing a new unread row raises its recipient's unread count by one and no one else's |
| Store.Database.NewId | src/modules/comments/comments.service.ts:62-66 | a generated id is non-empty and unused in every table |
| Common.CacheHit | src/modules/comments/comments.service.ts:457-460 | a cache entry is served iff it exists and is younger than its ttl |
| Common.CeilDiv | src/modules/comments/comments.service.ts:202 | Math.ceil of a quotient: the least q with q · d ≥ n |
| Common.PreviewShape | src/modules/comments/dto/comment-response.dto.ts:42-44 | a preview keeps text of at most 100 UTF-16 code units and otherwise cuts it to its longest prefix within 100 code units (99 or 100 of them) plus '...'; never over 103 characters; for text inside the Basic Multilingual Plane the cut is the first 100 characters |
| Common.PreviewCountsCodeUnits | src/modules/comments/dto/comment-response.dto.ts:42-44 | sixty characters outside the Basic Multilingual Plane (120 code units) are cut to fifty plus '...' |
| CommentTree.DirectRepliesAtMostTotal | src/modules/comments/comments.service.ts:71-81 | in a consistent store, 0 ≤ replyCount ≤ totalReplies for every comment |
| CommentTree.InsertKeepsForest | src/modules/comments/comments.service.ts:62-68 | storing a new comment under a present parent keeps the parent links a forest |
| CommentTree.FreshHasNoReplies | src/modules/comments/comments.service.ts:62-68 | a newly stored comment has no live replies |
| CommentTree.InsertReplyKeepsCounters | src/modules/comments/comments.service.ts:71-99 | inserting a reply and bumping its parent and ancestors by one keeps the counters equal to the live replies |
| CommentTree.InsertTopLevelKeepsCounters | src/modules/comments/comments.service.ts:62-68 | inserting a top-level comment needs no counter change |
| CommentTree.SameCountersKeepConsistent | src/modules/comments/comments.service.ts:310-318 | a change that keeps keys, parents, deletion flags and counters (an edit) keeps the counters consistent |
| CommentTree.MarkDeletedKeepsForest | src/modules/comments/comments.service.ts:372-380 | soft deletion keeps the parent links a forest |
| CommentTree.DeleteReplyKeepsCounters | src/modules/comments/comments.service.ts:383-410 | soft-deleting a live reply and lowering its parent and the parent's ancestors by one keeps the counters equal to the live replies |
| CommentTree.DeleteTopLevelKeepsCounters | src/modules/comments/comments.service.ts:372-380 | soft-deleting a live top-level comment needs no counter change |
| CommentTree.AnonymiseKeepsForest | src/modules/users/users.service.ts:433-442 | anonymising a user's comments keeps the forest |
| CommentTree.AnonymiseBreaksCounters | src/modules/users/users.service.ts:433-442 | some consistent store becomes inconsistent when a user's replies are soft-deleted by account deletion |
| CommentsService.CreateError | src/modules/comments/comments.service.ts:37-58 | 'User not found' first, then 'Parent comment not found or deleted' for a missing or deleted parent; otherwise no error |
| CommentsService.OwnerError | src/modules/comments/comments.service.ts:359-369 | 'Comment not found', then not the author, then the deleted-comment refusal, in that order; no error iff the caller's live comment |
| CommentsService.DatabaseError | src/modules/comments/comments.service.ts:569-577 | every code is a bad request, 23505 included: 'Invalid reference', 'Duplicate entry' or the generic database error message |
| CommentsService.RecordReply | src/modules/comments/comments.service.ts:76-80 | recording a reply time keeps the parent links and every other field of every row |
| CommentsService.AfterCreate | src/modules/comments/comments.service.ts:62-99 | the table with the new row stored and the counters bumped keeps the parent links and stays a forest |
| CommentsService.CreateMovesCounters | src/modules/comments/comments.service.ts:71-99 | after a create the new row is stored; the parent has one more direct and total reply and a reply time; every strict ancestor one more total reply; every other row is unchanged |
| CommentsService.AfterDelete | src/modules/comments/comments.service.ts:372-410 | the comment is flagged deleted, the keys, links and deleted flags of the others are kept, and the table stays a forest |
| CommentsService.AncestorIsOlder | src/modules/comments/comments.service.ts:84-99 | every strict ancestor has a smaller forest rank, so the ancestor walk never meets the comment itself |
| CommentsService.CreateKeepsCounters | src/modules/comments/comments.service.ts:62-108 | a create keeps the reply counters equal to the live reply structure |
| CommentsService.DeleteKeepsCounters | src/modules/comments/comments.service.ts:372-419 | a delete keeps the reply counters equal to the live reply structure |
| CommentsService.DeleteUndoesCreate | src/modules/comments/comments.service.ts:383-410 | deleting a reply just created restores every older comment's replyCount and totalReplies |
| CommentsService.DeleteMovesCounters | src/modules/comments/comments.service.ts:383-410 | after a reply is deleted the parent has one fewer direct and total reply, every strict ancestor one fewer total reply, and no other counter moves |
| CommentsService.CreatePayloadIsStored | src/modules/comments/comments.service.ts:133-138 | the reply_count_updated payload of a create carries the parent's new stored counters |
| CommentsService.DeletePayloadAsWritten | src/modules/comments/comments.service.ts:431-437 | as written, the delete payload names the parent but carries the deleted comment's own counters |
| CommentsService.DeletePayloadAsWrittenIsStale | src/modules/comments/comments.service.ts:431-437 | on a thread with two replies, deleting one announces 0 replies while the parent still has 1 |
| CommentsService.DeletePayload | src/modules/comments/comments.service.ts:431-437 | the corrected delete payload carries the parent's counters after the delete |
| CommentsService.DeletePayloadCountsLiveReplies | src/modules/comments/comments.service.ts:431-437 | the corrected payload equals the parent's live direct and total replies after the delete, one direct reply fewer than before |
| CommentsService.Load | src/modules/comments/comments.service.ts:525-549 | the stored comment, with its author exactly when the author is stored |
| CommentsService.CountComment | src/modules/comments/comments.service.ts:103-108 | only the author's commentCount moves, by the given delta |
| CommentsService.CommentsService.constructor | src/modules/comments/comments.service.ts:21-31 | no cached stats over the shared database |
| CommentsService.CommentsService.CreateComment | src/modules/comments/comments.service.ts:33-153 | a refused create changes nothing; otherwise the store is AfterCreate, the cache is cleared, and comment.created is sent, plus reply_count_updated for a reply |
| CommentsService.CommentsService.UpdateComment | src/modules/comments/comments.service.ts:286-348 | guards in order; the author's live comment gets the new text; the stats cache is left alone |
| CommentsService.CommentsService.DeleteComment | src/modules/comments/comments.service.ts:350-449 | guards in order; the store is AfterDelete, the cache is cleared, comment.deleted is sent, and a reply also sends the corrected payload |
| CommentsService.CommentsService.FindCommentById | src/modules/comments/comments.service.ts:525-549 | 'Comment not found' iff the id is missing or the comment deleted; otherwise the stored comment's response |
| CommentsService.CommentsService.GetCommentStats | src/modules/comments/comments.service.ts:454-523 | a cache entry younger than 5 minutes is served; otherwise the fresh figures are stored and returned |
| CommentsService.DeletedStaysDeleted | src/modules/comments/comments.service.ts:298-369 | after a delete, a second delete fails with 'Comment already deleted' and an edit with 'Cannot update deleted comment' |
| ThreadsGateway.UpdateRoom | src/modules/comments/comments-threads.gateway.ts:305-328 | other rooms unchanged; join adds the user, leave removes them; userCount equals the member count and no empty room remains |
| ThreadsGateway.UpdateKeepsRoomsValid | src/modules/comments/comments-threads.gateway.ts:305-328 | every room keeps userCount == size and no room is empty |
| ThreadsGateway.JoinIdempotent | src/modules/comments/comments-threads.gateway.ts:317-323 | joining twice equals joining once |
| ThreadsGateway.LeaveWhenAbsentIsNoOp | src/modules/comments/comments-threads.gateway.ts:306-326 | leaving a missing room, or one the user is not in, changes nothing |
| ThreadsGateway.WithoutUser | src/modules/comments/comments-threads.gateway.ts:330-345 | the user is in no room afterwards; rooms without the user are untouched; others lose exactly that user |
| ThreadsGateway.WithoutUserKeepsRoomsValid | src/modules/comments/comments-threads.gateway.ts:330-345 | removing a user everywhere keeps every room valid |
| ThreadsGateway.WithoutUserStep | src/modules/comments/comments-threads.gateway.ts:331-344 | the loop's one-room step agrees with WithoutUser restricted to the rooms visited |
| ThreadsGateway.LeaveVisitedRoom | src/modules/comments/comments-threads.gateway.ts:332-343 | visiting a room the user is in removes them from it |
| ThreadsGateway.SkipUnviewedRoom | src/modules/comments/comments-threads.gateway.ts:332-333 | visiting a room without the user changes nothing |
| ThreadsGateway.NoticesStep | src/modules/comments/comments-threads.gateway.ts:335-342 | one thread-user-left notice is added per room the user leaves |
| ThreadsGateway.RouteCommentEvent | src/modules/comments/comments-threads.gateway.ts:226-303 | a new reply goes to its parent's room (nothing without a parent); a reply count to the counted comment's room; an edit or a deletion to the comment's room and, when it has a parent, to the parent's room too |
| ThreadsGateway.Counts | src/modules/comments/comments-threads.gateway.ts:360-363 | one viewer count per tracked room |
| ThreadsGateway.ViewersAtLeastThreads | src/modules/comments/comments-threads.gateway.ts:356-363 | in valid rooms the total viewers are at least the number of active threads, and 0 only with no rooms |
| ThreadsGateway.PresenceIsPerUser | src/modules/comments/comments-threads.gateway.ts:93-98 | one of two sockets of a user disconnecting removes the user from a room while the other socket stays |
| ThreadsGateway.CommentThreadsGateway.constructor | src/modules/comments/comments-threads.gateway.ts:45-52 | no rooms and no clients |
| ThreadsGateway.CommentThreadsGateway.HandleConnection | src/modules/comments/comments-threads.gateway.ts:58-91 | a missing or invalid token disconnects; otherwise the socket is registered with its user and gets a 'connected' frame |
| ThreadsGateway.CommentThreadsGateway.HandleDisconnect | src/modules/comments/comments-threads.gateway.ts:93-98 | the user leaves every room, one thread-user-left notice is sent per room the user was in, and the socket is unregistered |
| ThreadsGateway.CommentThreadsGateway.UpdateThreadRoom | src/modules/comments/comments-threads.gateway.ts:305-328 | the rooms become UpdateRoom of the old rooms |
| ThreadsGateway.CommentThreadsGateway.LeaveAllThreads | src/modules/comments/comments-threads.gateway.ts:330-345 | the rooms become WithoutUser and one notice is sent per room left |
| ThreadsGateway.CommentThreadsGateway.HandleJoinThread | src/modules/comments/comments-threads.gateway.ts:106-154 | unauthenticated: 'Not authenticated' and no change; lookup failure: 'Failed to join thread'; success: socket join, 'thread-joined', and 'thread-user-joined' to the room |
| ThreadsGateway.CommentThreadsGateway.HandleLeaveThread | src/modules/comments/comments-threads.gateway.ts:156-198 | unauthenticated: no change; otherwise the user leaves the room and the room hears about it |
| ThreadsGateway.CommentThreadsGateway.HandleGetThreadStats | src/modules/comments/comments-threads.gateway.ts:200-216 | unauthenticated: an error frame; otherwise the room's user count |
| ThreadsGateway.CommentThreadsGateway.GetThreadUserCount | src/modules/comments/comments-threads.gateway.ts:347-350 | the room's member count, 0 for no room |
| ThreadsGateway.CommentThreadsGateway.GetConnectedClientsCount | src/modules/comments/comments-threads.gateway.ts:352-354 | the number of registered sockets |
| ThreadsGateway.CommentThreadsGateway.GetActiveThreadsCount | src/modules/comments/comments-threads.gateway.ts:356-358 | the number of rooms |
| ThreadsGateway.CommentThreadsGateway.GetTotalThreadViewers | src/modules/comments/comments-threads.gateway.ts:360-363 | the loop returns the sum of all room counts, at least the number of rooms |
| NotificationsGateway.RouteNotificationEvent | src/modules/notifications/notifications.gateway.ts:92-166 | two frames to user_<recipient>: the event with the notification and its loaded relations forwarded unchanged, then unread_count |
| NotificationsGateway.EventsStayWithRecipient | src/modules/notifications/notifications.gateway.ts:92-166 | no notification frame reaches another user's room |
| NotificationsGateway.UsersAtMostSockets | src/modules/notifications/notifications.gateway.ts:274-282 | distinct connected users never outnumber sockets |
| NotificationsGateway.ConnectedUsersAreOnline | src/modules/notifications/notifications.gateway.ts:261-282 | a user is counted as connected iff they are online |
| NotificationsGateway.NotificationsGateway.constructor | src/modules/notifications/notifications.gateway.ts:37-43 | no sockets registered |
| NotificationsGateway.NotificationsGateway.UnreadFor | src/modules/notifications/notifications.gateway.ts:226-242 | the user's unread count in the shared database, 0 without a user |
| NotificationsGateway.NotificationsGateway.HandleConnection | src/modules/notifications/notifications.gateway.ts:49-78 | a missing or invalid token disconnects; otherwise the socket is registered, joins its user room and receives unread_count |
| NotificationsGateway.NotificationsGateway.HandleDisconnect | src/modules/notifications/notifications.gateway.ts:80-83 | exactly that socket leaves the registry |
| NotificationsGateway.NotificationsGateway.HandleNotificationEvent | src/modules/notifications/notifications.gateway.ts:92-166 | the routed frames, carrying the loaded notification, with the recipient's unread count at dispatch time |
| NotificationsGateway.NotificationsGateway.HandleJoinNotifications | src/modules/notifications/notifications.gateway.ts:169-195 | 'Not authenticated' without a user, 'Access denied' for another user's room, and a join only into the caller's own room |
| NotificationsGateway.NotificationsGateway.HandleMarkNotificationRead | src/modules/notifications/notifications.gateway.ts:197-224 | 'Not authenticated' with no change; for the owner the row is marked read through the service, notification.updated is emitted with the row, its sender and its comment, 'notification_marked_read' is sent and an unread row lowers the count by one; otherwise one 'Failed to mark notification as read' frame and no change |
| NotificationsGateway.NotificationsGateway.HandleGetUnreadCount | src/modules/notifications/notifications.gateway.ts:226-242 | 'Not authenticated' without a user; otherwise one unread_count frame with the caller's unread count |
| NotificationsGateway.NotificationsGateway.GetUserConnectionStatus | src/modules/notifications/notifications.gateway.ts:261-268 | the loop answers true iff some registered socket belongs to the user |
| NotificationsGateway.NotificationsGateway.GetConnectedClientsCount | src/modules/notifications/notifications.gateway.ts:270-272 | the number of registered sockets |
| NotificationsGateway.NotificationsGateway.GetConnectedUsersCount | src/modules/notifications/notifications.gateway.ts:274-282 | the loop counts the distinct defined user ids, never more than the sockets |
| NotificationsGateway.CreatedRaisesUnreadCount | src/modules/notifications/notifications.gateway.ts:92-109 | after a fresh unread insert the unread_count frame is one higher than the count before |
| NotificationsGateway.RelayCarriesSenderRow | src/modules/notifications/notifications.gateway.ts:92-124 | the relayed notification.new and notification.updated frames hold the sender's whole user row, password hash included |
| Notifications.CreateError | src/modules/notifications/notification.service.ts:42-72 | recipient missing, then sender missing, then self-notification, then related comment missing, in that order |
| Notifications.MissingKeyNeverMerges | src/modules/notifications/notification.service.ts:615-631 | a request without fromUser or relatedComment never matches a duplicate (SQL NULL comparison) |
| Notifications.Merge | src/modules/notifications/notification.service.ts:639-647 | the merged row gets the new title, message, metadata and createdAt, becomes unread with no readAt, and keeps its id and recipient |
| Notifications.Inserted | src/modules/notifications/notification.service.ts:86-100 | a fresh unread row with the request's fields |
| Notifications.DeliveredKept | src/modules/notifications/notification.service.ts:76-120 | a request once delivered stays delivered when other rows change |
| Notifications.BothPathsDeliver | src/modules/notifications/notification.service.ts:76-120 | after either the merge or the insert the recipient holds an unread row carrying the request |
| Notifications.Quote | src/modules/notifications/notification.service.ts:166 | the comment text in double quotes, unchanged up to 100 UTF-16 code units, else cut to its longest prefix within 100 code units plus '...' |
| Notifications.ReplyRequest | src/modules/notifications/notification.service.ts:141-176 | a request iff both comments and authors exist and the authors differ; it goes to the parent's author with title 'New reply from <name>', the quoted reply and action URL /comments/<comment>#reply-<reply> |
| Notifications.MentionRecipients | src/modules/notifications/notification.service.ts:196-204 | exactly the users whose username was mentioned, less the author |
| Notifications.MentionRequest | src/modules/notifications/notification.service.ts:205-219 | a high-priority mention to the recipient, titled 'You were mentioned by <name>', with the quoted text and action URL /comments/<comment> |
| Notifications.GeneratedRequestsAreValid | src/modules/notifications/notification.service.ts:141-159 | every reply and mention request the service builds passes the creation checks |
| Notifications.ApplyRead | src/modules/notifications/notification.service.ts:451-456 | isRead takes the given flag; true stamps readAt with now; false clears it; no other field changes |
| Notifications.ApplyReadEffects | src/modules/notifications/notification.service.ts:451-456 | isRead and readAt stay in step, and marking an unread row read lowers the recipient's unread count by one |
| Notifications.MarkAllRead | src/modules/notifications/notification.service.ts:503-517 | the caller's unread rows are stamped read at now, no unread row of the caller is left, and every other row is kept |
| Notifications.DeleteRead | src/modules/notifications/notification.service.ts:520-531 | a row is removed iff it is a read row of the caller; the rest are kept unchanged |
| Notifications.DeleteExpired | src/modules/notifications/notification.service.ts:534-548 | a row is removed iff it is the caller's and older than thirty days; the rest are kept unchanged |
| Notifications.MarkSelected | src/modules/notifications/notification.service.ts:551-565 | the listed rows of the caller are stamped read at now; every other row is kept |
| Notifications.BulkTouchesOnlyCaller | src/modules/notifications/notification.service.ts:493-580 | bulk update leaves every other user's rows as they were |
| Notifications.BulkOnlyMarksAndRemoves | src/modules/notifications/notification.service.ts:493-580 | every surviving row is an old row, possibly marked read |
| Notifications.MarkAllLeavesNothingUnread | src/modules/notifications/notification.service.ts:503-517 | with markAllAsRead the caller's unread count is 0 after the bulk update |
| Notifications.DeleteExpiredLeavesNoneExpired | src/modules/notifications/notification.service.ts:534-548 | with deleteExpired no row of the caller shows as expired in its response at the same instant |
| Notifications.DeleteReadLeavesNoneRead | src/modules/notifications/notification.service.ts:520-531 | with deleteRead and no ids, no read row of the caller survives |
| Notifications.BulkReportsLastStep | src/modules/notifications/notification.service.ts:503-565 | the count and message come from the last step that ran ('Marked N notifications as read', 'Deleted N expired notifications', 'Updated N specific notifications'); no step gives 0; the id step counts at most the ids given |
| Notifications.BulkKeepsKeys | src/modules/notifications/notification.service.ts:493-580 | rows stay stored under their own ids |
| Notifications.BulkKeepsStamps | src/modules/notifications/notification.service.ts:493-580 | isRead and readAt stay in step |
| Notifications.DatabaseError | src/modules/notifications/notification.service.ts:694-702 | 23503 is a bad request 'Invalid reference in <op>', a conflict iff 23505 ('Duplicate entry in <op>'), anything else the bad request 'Database error in <op>: <detail>' |
| Notifications.NotificationsService.constructor | src/modules/notifications/notification.service.ts:18-31 | an empty summary cache over the shared database |
| Notifications.NotificationsService.CreateNotification | src/modules/notifications/notification.service.ts:34-129 | the checks in order; a duplicate within 5 minutes is merged with no event and no cache change; otherwise a fresh row is inserted, the recipient's cache entry cleared and notification.created sent with the row and its recipient, sender and comment rows; other recipients' rows never change |
| Notifications.NotificationsService.CreateReplyNotification | src/modules/notifications/notification.service.ts:132-180 | nothing for a top-level or self reply; otherwise CreateNotification with the reply request |
| Notifications.NotificationsService.CreateMentionNotification | src/modules/notifications/notification.service.ts:183-225 | nothing without the comment and its author; otherwise each mentioned user other than the author gets the mention delivered, no one else's rows change, and exactly the recipients whose request was inserted lose their cache entry and get one notification.created each |
| Notifications.NotificationsService.NotifyMentioned | src/modules/notifications/notification.service.ts:205-219 | the mention request is created as by createNotification: merged silently into a recent duplicate, or inserted with one notification.created and the recipient's cache entry cleared; other users' rows stay |
| Notifications.NotificationsService.NotifyAll | src/modules/notifications/notification.service.ts:201-221 | the creations for all recipients, one at a time, together do what BatchSoFar states for the whole recipient set |
| Notifications.NotificationsService.MentionNext | src/modules/notifications/notification.service.ts:205-219 | one more recipient's creation extends BatchSoFar to that recipient |
| Notifications.BatchStep | src/modules/notifications/notification.service.ts:201-221 | a merge (no event, cache kept) or an insert (one event, cache entry cleared) for a new recipient extends what the batch has done |
| Notifications.FreshMentions | src/modules/notifications/notification.service.ts:615-632 | the recipients with no duplicate within 5 minutes, the ones whose mention is inserted rather than merged |
| Notifications.WithRelations | src/modules/notifications/notification.service.ts:103-116 | the row with the recipient (for notification.created only), sender and related comment joined when their rows exist |
| Notifications.DuplicatesOfRecipient | src/modules/notifications/notification.service.ts:615-632 | the duplicates of a request depend only on its recipient's rows |
| Notifications.NotificationsService.UpdateNotification | src/modules/notifications/notification.service.ts:430-490 | 'Notification not found or access denied' unless the caller owns the row; without isRead the empty update fails with nothing changed, no eviction and no event; otherwise ApplyRead, the caller's cache entry cleared and notification.updated sent with the row, its sender and its comment; read stamps stay consistent |
| Notifications.NotificationsService.BulkUpdateNotifications | src/modules/notifications/notification.service.ts:493-580 | the table becomes BulkSpec, the caller's cache entry is cleared, and a bulk event is sent |
| Notifications.NotificationsService.DeleteNotification | src/modules/notifications/notification.service.ts:583-612 | 'Notification not found or access denied' unless the caller owns the row; otherwise exactly that row is removed, the cache entry cleared and notification.deleted sent; the database invariant is kept |
| Notifications.NotificationsService.GetUnreadCount | src/modules/notifications/notification.service.ts:663-673 | the number of the user's unread rows, never more than the table |
| Notifications.NotificationsService.NotificationsSummary | src/modules/notifications/notification.service.ts:334-342 | a cache entry younger than 2 minutes is served; otherwise the fresh figures are stored |
| UsersService.GetUserProfile | src/modules/users/users.service.ts:31-52 | 'User not found' iff the user is missing; otherwise the profile of that user |
| UsersService.GetPublicUserProfile | src/modules/users/users.service.ts:56-76 | 'User not found' iff the user is missing; otherwise the public profile of that user |
| UsersService.ProfileError | src/modules/users/users.service.ts:84-95 | 'User not found' first, then 'Username already exists' iff another account holds the new name |
| UsersService.RenameKeepsUnique | src/modules/users/users.service.ts:84-103 | an accepted rename to a non-empty name keeps usernames unique |
| UsersService.OwnNameNeverConflicts | src/modules/users/users.service.ts:88-95 | renaming to one's own name is never a conflict |
| UsersService.PasswordError | src/modules/users/users.service.ts:131-152 | 'User not found', 'Invalid current password', 'Passwords do not match', then same-as-current, in that order; no error iff all four pass |
| UsersService.SamePasswordRefused | src/modules/users/users.service.ts:148-152 | whatever the hash, reusing the current password is refused, with the same-password message once the first three checks pass |
| UsersService.DeletedName | src/modules/users/users.service.ts:425 | 'deleted_user_' followed by the first 8 characters of the id (all of a shorter id) |
| UsersService.Anonymised | src/modules/users/users.service.ts:421-430 | username DeletedName of the id, password hash 'DELETED', id, creation time and counters kept |
| UsersService.AnonymiseKeepsUnique | src/modules/users/users.service.ts:421-430 | when no other account holds the placeholder name, anonymising keeps usernames unique |
| UsersService.SharedPrefixClashes | src/modules/users/users.service.ts:425 | two distinct ids with the same first 8 characters: after the first account is deleted, the second's placeholder name is taken |
| UsersService.UserCommentRows | src/modules/users/users.service.ts:286-304 | exactly the user's comments that pass the deleted and replies filters |
| UsersService.FiltersNarrow | src/modules/users/users.service.ts:286-304 | each extra filter only narrows the rows; with none, the rows are the user's live comments |
| UsersService.AnonymisedListsNothing | src/modules/users/users.service.ts:433-442 | after account deletion, a listing hiding deleted comments is empty, and any listed comment shows '[deleted by user]' |
| UsersService.UsersService.constructor | src/modules/users/users.service.ts:19-29 | an empty stats cache over the shared database |
| UsersService.UsersService.UpdateUserProfile | src/modules/users/users.service.ts:78-122 | the error of ProfileError; without a username, the NOT NULL violation with nothing changed; otherwise the renamed user with its stats cache entry evicted; unique usernames stay unique for a non-empty name |
| UsersService.UsersService.ChangePassword | src/modules/users/users.service.ts:125-177 | the error of PasswordError, or only the hash replaced |
| UsersService.UsersService.DeleteUserAccount | src/modules/users/users.service.ts:409-453 | 'User not found'; when another account holds the placeholder name, the unique violation with nothing changed; otherwise the user anonymised, every comment of theirs anonymised and their cache entry evicted; unique usernames stay unique |
| UsersService.UsersService.GetUserStats | src/modules/users/users.service.ts:182-267 | a cache entry younger than 10 minutes is served; otherwise the fresh figures are stored |
| UsersService.UsersService.UserCommentsPage | src/modules/users/users.service.ts:271-354 | the total is the number of rows the filters select, and hasNextPage holds iff rows remain after the page |

## Left out

- Socket.io is modelled as frame lists (emits, joins, leaves, disconnects). Delivery, acknowledgements and the `ping` handlers of both gateways are not modelled.
- JWT verification, bcrypt comparison and bcrypt hashing are parameters, because they are external libraries.
- The clock is the parameter `now` in milliseconds. Timestamps inside event payloads are not modelled.
- SQL aggregates of the stats endpoints (`DATE_TRUNC`, floating-point averages) are parameters. The model covers only the cache around them.
- Interleaving of async calls is not modelled: each operation runs as one step.
- Database failures inside transactions are modelled only where the model's own state decides them: the NOT NULL username column, the unique placeholder name of a deleted account and the empty update. Each escapes its service as `Unhandled`, which Nest answers with status 500, because the transactions are returned without `await` and no `catch` sees them. Lost connections and other driver failures are not modelled. `handleDatabaseError` is modelled on its own, since no failure inside a transaction reaches it.
- `loadRepliesRecursively` and the reply rows attached by `findAllComments` and `findReplies` are not modelled. Their paging arithmetic is (`Pagination`).
- The filters and sort of `getUserNotifications`, the `getUserCommentsSummary` figures, `broadcastSystemNotification` and `cleanupOldNotifications` are not modelled. They are queries or broadcasts with no state rule beyond the shared cache and paging.
- UsersService.UsersService.UpdateUserProfile and Notifications.ApplyRead read `undefined` in a TypeORM `.set` one way: the column is written with NULL (the driver binds an undefined parameter as NULL). So `readAt: undefined` clears the stamp, and a profile update without a username violates the NOT NULL username column and fails. TypeORM's automatic `updatedAt` is not modelled.
- Notifications.NotificationsService.UpdateNotification: a request without `isRead` is modelled as failing, because the notification entity has no update-date or version column for TypeORM to add to the empty `.set({})`. The exact text of TypeORM's error is not modelled.
- The notification entity file declares fewer columns than the service reads and writes (it has `userId` and `commentId` where the service uses `recipientId`, `type`, `title`, `message` and `readAt`). The model follows the service's fields.
- Map iteration order in `leaveAllThreads` is abstract. The notices are proved as a set, one per room left.
- UsersService.UsersService.DeleteUserAccount fails with the unique violation when another account holds the placeholder name. This happens because the name keeps only 8 characters of the id, so distinct ids can share it (UsersService.SharedPrefixClashes), and because any user may pick such a name. The users table of the model does not enforce unique usernames by itself: uniqueness is proved to be preserved by every write that passes its checks.
- UsersService.DeletedName takes 8 characters of the id. Ids are generated UUIDs, which are ASCII, so this equals JavaScript's count of code units.
- Common.PreviewShape: JavaScript's `substring(0, 100)` splits a surrogate pair when a character outside the Basic Multilingual Plane straddles the 100th code unit, and it keeps the lone high surrogate. Dafny strings hold whole Unicode scalar values, so the model drops that character, and the preview ends after 99 code units.
- Notifications.Quote: the same lone-surrogate case as Common.PreviewShape.
- NotificationDto.CommentText: the same lone-surrogate case as Common.PreviewShape.
- CommentDto.ParentSummary: the same lone-surrogate case as Common.PreviewShape.
- Notifications.DeleteExpired uses thirty days of exactly 2,592,000,000 ms, the figure of the response transform. The service's `setDate(getDate() - 30)` counts calendar days in the server's local time, and across a daylight-saving change the two differ by an hour. The model assumes a UTC server clock. Notifications.DeleteExpiredLeavesNoneExpired holds under that assumption.
- Pagination.ReplyPagesGapAbove50 describes `findReplies` for a direct caller. Through HTTP it is unreachable, because the reply query declares `@Max(50)` on `limit` behind the global validation pipe.
- The throttler is a separate class. Neither gateway calls it, matching the code.
- Logger calls are not modelled.
- The controllers, modules, entities as classes, validation DTOs, `users-stats.dto.ts` and app wiring are not part of this model.
- CommentsService.DeleteComment: uses the corrected reply_count_updated payload (see Findings), not the one as written.
- CommentDto.ToResponse: uses the corrected author projection (see Findings), not the raw user row.

## Findings

| source | as written | input that shows it | evidently intended | confidence | as-written member | corrected member |
|---|---|---|---|---|---|---|
| src/modules/comments/comments.service.ts:431-437 | after deleting a reply, reply_count_updated carries max(0, replyCount - 1) and max(0, totalReplies - 1) of the deleted comment itself, under the parent's id | thread t with live replies a and b, neither with replies of its own; delete a: the event says t has max(0, 0 - 1) = 0 replies while t's stored replyCount is 1 | the parent's counters after the delete, as on create (lines 133-138) | high; not executed | CommentsService.DeletePayloadAsWrittenIsStale | CommentsService.DeletePayloadCountsLiveReplies |
| src/modules/comments/dto/comment-response.dto.ts:35 | the user transform returns the loaded user row itself, so all its columns reach the response: passwordHash, replyCount, createdAt and updatedAt besides the exposed fields | a live comment by user u1 whose passwordHash is "$2b$10$hash" | only the exposed user fields (id, username, commentCount) | medium; not executed | CommentDto.AuthorTransformLeaksPasswordHash | CommentDto.ResponseUser |

