/** The users service: profile reads, username changes, password changes,
    account anonymisation, the filters of a user's comment listing, and the
    ten-minute per-user statistics cache. Password hashing is a parameter:
    `matches(plain, hash)` stands for bcrypt's compare and the new hash is
    passed in. */
module UsersService {
  import opened Common
  import opened Records
  import CommentTree
  import Store
  import UserProfileDto
  import Pagination

  const StatsCacheTtl: int := 10 * 60 * 1000

  /** The figures of getUserStats the model keeps; they come from one SQL
      aggregate over the user's live comments. */
  datatype UserStats = UserStats(
    totalComments: nat,
    totalReplies: nat,
    topCommentId: Option<string>,
    lastCommentAt: Option<int>)

  // ---------------------------------------------------------------------
  // Profiles

  /** getUserProfile. */
  function GetUserProfile(users: map<string, User>, userId: string, now: int): (r: Result<UserProfileDto.ProfileResponse>)
    ensures r.Failure? <==> userId !in users
    ensures r.Failure? ==> r.error == NotFound("User not found")
    ensures r.Success? ==> r.value.id == users[userId].id && r.value.username == users[userId].username
  {
    if userId !in users then Failure(NotFound("User not found"))
    else Success(UserProfileDto.ToProfile(users[userId], now))
  }

  /** getPublicUserProfile. */
  function GetPublicUserProfile(users: map<string, User>, userId: string, now: int): (r: Result<UserProfileDto.PublicProfileResponse>)
    ensures r.Failure? <==> userId !in users
    ensures r.Failure? ==> r.error == NotFound("User not found")
    ensures r.Success? ==> r.value.id == users[userId].id && r.value.username == users[userId].username
  {
    if userId !in users then Failure(NotFound("User not found"))
    else Success(UserProfileDto.ToPublicProfile(users[userId], now))
  }

  // ---------------------------------------------------------------------
  // Usernames

  predicate UsernameTaken(users: map<string, User>, name: string) {
    exists k :: k in users && users[k].username == name
  }

  /** No two accounts share a username (the column is unique). */
  ghost predicate UniqueUsernames(users: map<string, User>) {
    forall a, b :: a in users && b in users && users[a].username == users[b].username ==> a == b
  }

  /** The checks of updateUserProfile, in their order: the account exists,
      and a truthy username other than the current one is not in use. */
  function ProfileError(users: map<string, User>, userId: string, username: Option<string>): (e: Option<HttpError>)
    ensures e.None? <==>
              userId in users
              && !(Truthy(username) && username.value != users[userId].username && UsernameTaken(users, username.value))
    ensures userId !in users ==> e == Some(NotFound("User not found"))
    ensures userId in users && e.Some? ==> e == Some(Conflict("Username already exists"))
  {
    if userId !in users then Some(NotFound("User not found"))
    else if Truthy(username) && username.value != users[userId].username && UsernameTaken(users, username.value) then
      Some(Conflict("Username already exists"))
    else None
  }

  /** The users table after updateUserProfile writes a username. */
  function Renamed(users: map<string, User>, userId: string, name: string): (r: map<string, User>)
    requires userId in users
  {
    users[userId := users[userId].(username := name)]
  }

  /** A rename that passes the checks keeps usernames unique, given a
      non-empty name (the request validation refuses an empty one). */
  lemma RenameKeepsUnique(users: map<string, User>, userId: string, name: string)
    requires UniqueUsernames(users) && ProfileError(users, userId, Some(name)).None?
    requires name != ""
    ensures UniqueUsernames(Renamed(users, userId, name))
  {
    var r := Renamed(users, userId, name);
    forall a, b | a in r && b in r && a != b
      ensures r[a].username != r[b].username
    {
      if a == userId || b == userId {
        var other := if a == userId then b else a;
        assert r[other] == users[other];
        if name != users[userId].username {
          assert !UsernameTaken(users, name);
        }
      }
    }
  }

  /** Re-submitting one's own username never conflicts, and a name held by
      another account always does. */
  lemma OwnNameNeverConflicts(users: map<string, User>, userId: string, other: string)
    requires userId in users && other in users && other != userId && users[other].username != ""
    requires UniqueUsernames(users)
    ensures ProfileError(users, userId, Some(users[userId].username)).None?
    ensures ProfileError(users, userId, Some(users[other].username)) == Some(Conflict("Username already exists"))
  {
    assert UsernameTaken(users, users[other].username);
  }

  // ---------------------------------------------------------------------
  // Passwords

  datatype PasswordChange = PasswordChange(currentPassword: string, newPassword: string, confirmPassword: string)

  /** The checks of changePassword, in their order: the account exists, the
      current password matches the stored hash, the new password equals its
      confirmation, and the new password does not match the stored hash. */
  function PasswordError(users: map<string, User>, userId: string, dto: PasswordChange, matches: (string, string) -> bool): (e: Option<HttpError>)
    ensures e.None? <==>
              && userId in users
              && matches(dto.currentPassword, users[userId].passwordHash)
              && dto.newPassword == dto.confirmPassword
              && !matches(dto.newPassword, users[userId].passwordHash)
    ensures userId !in users ==> e == Some(NotFound("User not found"))
    ensures userId in users && !matches(dto.currentPassword, users[userId].passwordHash) ==>
              e == Some(Unauthorized("Invalid current password"))
    ensures userId in users && matches(dto.currentPassword, users[userId].passwordHash) && dto.newPassword != dto.confirmPassword ==>
              e == Some(BadRequest("Passwords do not match"))
  {
    if userId !in users then Some(NotFound("User not found"))
    else if !matches(dto.currentPassword, users[userId].passwordHash) then Some(Unauthorized("Invalid current password"))
    else if dto.newPassword != dto.confirmPassword then Some(BadRequest("Passwords do not match"))
    else if matches(dto.newPassword, users[userId].passwordHash) then
      Some(BadRequest("New password cannot be the same as the current password"))
    else None
  }

  /** Whatever the hash function, a change to the same password is refused:
      either the current password does not match, or the new one does. */
  lemma SamePasswordRefused(users: map<string, User>, userId: string, dto: PasswordChange, matches: (string, string) -> bool)
    requires dto.newPassword == dto.currentPassword
    ensures PasswordError(users, userId, dto, matches).Some?
    ensures userId in users && matches(dto.currentPassword, users[userId].passwordHash) && dto.newPassword == dto.confirmPassword ==>
              PasswordError(users, userId, dto, matches) == Some(BadRequest("New password cannot be the same as the current password"))
  {
  }

  // ---------------------------------------------------------------------
  // Account deletion

  /** The placeholder username of a deleted account: "deleted_user_" and
      the first eight characters of its id. */
  function DeletedName(userId: string): (name: string)
    ensures |name| == 13 + Min(8, |userId|)
    ensures name[..13] == "deleted_user_" && name[13..] == userId[..Min(8, |userId|)]
  {
    "deleted_user_" + Take(userId, 8)
  }

  /** The anonymised account row: the placeholder username, a password hash
      no password matches, and the deletion time. */
  function Anonymised(u: User, userId: string, now: int): (a: User)
    ensures a.id == u.id && a.createdAt == u.createdAt && a.commentCount == u.commentCount
    ensures a.username == DeletedName(userId) && a.passwordHash == "DELETED"
  {
    u.(username := DeletedName(userId), passwordHash := "DELETED", updatedAt := now)
  }

  /** Another account already holds the placeholder name, so the unique
      username column refuses the anonymised row. */
  predicate DeletedNameClash(users: map<string, User>, userId: string) {
    exists k :: k in users && k != userId && users[k].username == DeletedName(userId)
  }

  /** Without a clash, anonymising an account keeps usernames unique. */
  lemma AnonymiseKeepsUnique(users: map<string, User>, userId: string, now: int)
    requires userId in users && UniqueUsernames(users) && !DeletedNameClash(users, userId)
    ensures UniqueUsernames(users[userId := Anonymised(users[userId], userId, now)])
  {
    var r := users[userId := Anonymised(users[userId], userId, now)];
    forall a, b | a in r && b in r && a != b
      ensures r[a].username != r[b].username
    {
      if a == userId || b == userId {
        var other := if a == userId then b else a;
        assert r[other] == users[other];
        assert users[other].username != DeletedName(userId);
      }
    }
  }

  /** Two accounts whose ids share their first eight characters share the
      placeholder name: once the first is deleted, deleting the second
      clashes with it. */
  lemma SharedPrefixClashes(users: map<string, User>, first: string, second: string, now: int)
    requires first in users && second in users && first != second
    requires |first| >= 8 && |second| >= 8 && first[..8] == second[..8]
    ensures DeletedNameClash(users[first := Anonymised(users[first], first, now)], second)
  {
    var r := users[first := Anonymised(users[first], first, now)];
    assert r[first].username == DeletedName(second);
  }

  // ---------------------------------------------------------------------
  // getUserComments

  /** The filters and paging of getUserComments; an absent flag is false. */
  datatype UserCommentsQuery = UserCommentsQuery(
    page: Option<int>,
    limit: Option<int>,
    sortBy: Option<string>,
    includeDeleted: bool,
    topLevelOnly: bool,
    fromDate: Option<int>,
    toDate: Option<int>,
    minReplies: Option<int>)

  /** The row filter the listing and its summary share. */
  predicate Listed(c: Comment, userId: string, q: UserCommentsQuery) {
    && c.userId == userId
    && (!q.includeDeleted ==> !c.isDeleted)
    && (q.topLevelOnly ==> c.parentId.None?)
    && (q.fromDate.Some? ==> c.createdAt >= q.fromDate.value)
    && (q.toDate.Some? ==> c.createdAt <= q.toDate.value)
    && (q.minReplies.Some? ==> c.totalReplies >= q.minReplies.value)
  }

  /** The ids a listing draws its pages from. */
  function UserCommentRows(comments: CommentTree.Table, userId: string, q: UserCommentsQuery): (ids: set<string>)
    ensures forall k :: k in ids <==> k in comments && Listed(comments[k], userId, q)
  {
    set k | k in comments && Listed(comments[k], userId, q)
  }

  /** Each added filter can only narrow the listing: with every flag off but
      the deleted filter, the rows are exactly the user's live comments. */
  lemma FiltersNarrow(comments: CommentTree.Table, userId: string, q: UserCommentsQuery)
    ensures var base := UserCommentsQuery(q.page, q.limit, q.sortBy, q.includeDeleted, false, None, None, None);
            UserCommentRows(comments, userId, q) <= UserCommentRows(comments, userId, base)
    ensures !q.includeDeleted ==>
              var base := UserCommentsQuery(q.page, q.limit, q.sortBy, false, false, None, None, None);
              forall k :: k in UserCommentRows(comments, userId, base) <==>
                            k in comments && comments[k].userId == userId && !comments[k].isDeleted
  {
  }

  /** After an account is anonymised, a listing that hides deleted comments
      shows none of its comments, and one that includes them shows each with
      the placeholder text. */
  lemma AnonymisedListsNothing(comments: CommentTree.Table, userId: string, now: int, q: UserCommentsQuery)
    ensures !q.includeDeleted ==> UserCommentRows(CommentTree.AnonymiseComments(comments, userId, now), userId, q) == {}
    ensures forall k :: k in UserCommentRows(CommentTree.AnonymiseComments(comments, userId, now), userId, q) ==>
              CommentTree.AnonymiseComments(comments, userId, now)[k].text == "[deleted by user]"
  {
    var m' := CommentTree.AnonymiseComments(comments, userId, now);
    if !q.includeDeleted {
      forall k | k in m' ensures !Listed(m'[k], userId, q) {
        if m'[k].userId == userId {
          assert comments[k].userId == userId;
        }
      }
    }
  }

  // ---------------------------------------------------------------------
  // The service

  class UsersService {
    const db: Store.Database
    /** The statistics cache keyed by user id. */
    var statsCache: map<string, Cached<UserStats>>

    constructor (db: Store.Database)
      ensures this.db == db && statsCache == map[]
    {
      this.db := db;
      statsCache := map[];
    }

    /** updateUserProfile: after the checks the username column is written
        with the request's value. A request without one writes NULL, which
        the NOT NULL column refuses, so the call fails and nothing changes. */
    method UpdateUserProfile(userId: string, username: Option<string>, now: int)
      returns (r: Result<UserProfileDto.ProfileResponse>)
      requires db.Valid()
      modifies this`statsCache, db`users
      ensures db.Valid()
      ensures var err := ProfileError(old(db.users), userId, username);
              if err.Some? then
                r == Failure(err.value) && db.users == old(db.users) && statsCache == old(statsCache)
              else if username.None? then
                && r == Failure(Unhandled(NotNullViolation("username")))
                && db.users == old(db.users) && statsCache == old(statsCache)
              else
                && db.users == Renamed(old(db.users), userId, username.value)
                && r == Success(UserProfileDto.ToProfile(db.users[userId], now))
                && statsCache == old(statsCache) - {userId}
      ensures UniqueUsernames(old(db.users)) && (username.Some? ==> username.value != "") ==> UniqueUsernames(db.users)
    {
      var err := ProfileError(db.users, userId, username);
      if err.Some? {
        return Failure(err.value);
      }
      if username.None? {
        // `.set({ username: undefined })` writes NULL into the NOT NULL
        // username column; the transaction rolls back.
        return Failure(Unhandled(NotNullViolation("username")));
      }
      if UniqueUsernames(db.users) && username.value != "" {
        RenameKeepsUnique(db.users, userId, username.value);
      }
      db.users := Renamed(db.users, userId, username.value);
      statsCache := statsCache - {userId};
      r := Success(UserProfileDto.ToProfile(db.users[userId], now));
    }

    /** changePassword; newHash is the hash of the new password. */
    method ChangePassword(userId: string, dto: PasswordChange, matches: (string, string) -> bool, newHash: string)
      returns (r: Result<string>)
      requires db.Valid()
      modifies db`users
      ensures db.Valid()
      ensures var err := PasswordError(old(db.users), userId, dto, matches);
              if err.Some? then
                r == Failure(err.value) && db.users == old(db.users)
              else
                && r == Success("Password changed successfully")
                && db.users == old(db.users)[userId := old(db.users)[userId].(passwordHash := newHash)]
    {
      var err := PasswordError(db.users, userId, dto, matches);
      if err.Some? {
        return Failure(err.value);
      }
      db.users := db.users[userId := db.users[userId].(passwordHash := newHash)];
      r := Success("Password changed successfully");
    }

    /** deleteUserAccount: the account row is anonymised and every comment
        of the user is flagged deleted with placeholder text; the comment
        counters are left as they are. When another account holds the
        placeholder name, the unique username column refuses the row, the
        transaction rolls back and nothing changes. */
    method DeleteUserAccount(userId: string, now: int) returns (err: Option<HttpError>)
      requires db.Valid()
      modifies this`statsCache, db`users, db`comments
      ensures db.Valid()
      ensures userId !in old(db.users) ==>
                err == Some(NotFound("User not found"))
                && db.users == old(db.users) && db.comments == old(db.comments) && statsCache == old(statsCache)
      ensures userId in old(db.users) && DeletedNameClash(old(db.users), userId) ==>
                err == Some(Unhandled(UniqueViolation("username")))
                && db.users == old(db.users) && db.comments == old(db.comments) && statsCache == old(statsCache)
      ensures userId in old(db.users) && !DeletedNameClash(old(db.users), userId) ==>
                && err.None?
                && db.users == old(db.users)[userId := Anonymised(old(db.users)[userId], userId, now)]
                && db.comments == CommentTree.AnonymiseComments(old(db.comments), userId, now)
                && statsCache == old(statsCache) - {userId}
      ensures UniqueUsernames(old(db.users)) ==> UniqueUsernames(db.users)
    {
      if userId !in db.users {
        return Some(NotFound("User not found"));
      }
      if DeletedNameClash(db.users, userId) {
        return Some(Unhandled(UniqueViolation("username")));
      }
      if UniqueUsernames(db.users) {
        AnonymiseKeepsUnique(db.users, userId, now);
      }
      CommentTree.AnonymiseKeepsForest(db.comments, db.rank, userId, now);
      db.users := db.users[userId := Anonymised(db.users[userId], userId, now)];
      db.comments := CommentTree.AnonymiseComments(db.comments, userId, now);
      statsCache := statsCache - {userId};
      err := None;
    }

    /** The cache side of getUserStats: a fresh entry is served as it is;
        otherwise the figures computed from the table (a parameter here) are
        stored with the current time. */
    method GetUserStats(userId: string, now: int, computed: UserStats) returns (s: UserStats)
      modifies this`statsCache
      ensures var hit := CacheHit(if userId in old(statsCache) then Some(old(statsCache)[userId]) else None, now, StatsCacheTtl);
              if hit.Some? then s == hit.value && statsCache == old(statsCache)
              else s == computed && statsCache == old(statsCache)[userId := Cached(computed, now)]
    {
      var hit := CacheHit(if userId in statsCache then Some(statsCache[userId]) else None, now, StatsCacheTtl);
      if hit.Some? {
        return hit.value;
      }
      s := computed;
      statsCache := statsCache[userId := Cached(computed, now)];
    }

    /** The page window, the order and the metadata of getUserComments for
        the rows its filters select. */
    function UserCommentsPage(userId: string, q: UserCommentsQuery): (r: (Pagination.Window, Pagination.Order, Pagination.Meta))
      reads this, db
      requires q.page.Some? ==> q.page.value >= 1
      requires q.limit.Some? ==> q.limit.value >= 1
      ensures r.2.totalItems == |UserCommentRows(db.comments, userId, q)|
      ensures r.2.hasNextPage <==> r.0.page * r.0.limit < |UserCommentRows(db.comments, userId, q)|
    {
      var w := Pagination.ListWindow(q.page, q.limit);
      var total := |UserCommentRows(db.comments, userId, q)|;
      Pagination.NextPageIffRowsRemain(w, total);
      (w, Pagination.UserCommentsOrder(q.sortBy), Pagination.MetaFor(w, total))
    }
  }
}
