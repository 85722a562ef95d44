/** The two profile responses: the owner's own profile and the public one.
    Both derive daysSinceJoined from the distance between now and the
    account's creation time, in milliseconds. */
module UserProfileDto {
  import opened Common
  import opened Records

  const DayMs := 1000 * 60 * 60 * 24

  /** Whole days between createdAt and now, rounded up, in either
      direction. */
  function DaysSinceJoined(createdAt: int, now: int): (d: nat)
    ensures d * DayMs >= Abs(now - createdAt)
    ensures d > 0 ==> (d - 1) * DayMs < Abs(now - createdAt)
  {
    CeilDiv(Abs(now - createdAt), DayMs)
  }

  /** No days have passed exactly at the creation instant, and one day for
      any positive distance up to and including a full day. */
  lemma DaysSinceJoinedSmall(createdAt: int, now: int)
    ensures DaysSinceJoined(createdAt, now) == 0 <==> now == createdAt
    ensures 0 < Abs(now - createdAt) <= DayMs ==> DaysSinceJoined(createdAt, now) == 1
  {
  }

  /** A creation time in the future counts the same as one equally far in
      the past. */
  lemma DaysSinceJoinedSymmetric(now: int, delta: int)
    ensures DaysSinceJoined(now + delta, now) == DaysSinceJoined(now - delta, now)
  {
  }

  /** The day count never goes down as time passes after joining. */
  lemma DaysSinceJoinedGrows(createdAt: int, now: int, later: int)
    requires createdAt <= now <= later
    ensures DaysSinceJoined(createdAt, now) <= DaysSinceJoined(createdAt, later)
  {
    var d1 := DaysSinceJoined(createdAt, now);
    var d2 := DaysSinceJoined(createdAt, later);
    if d1 > d2 {
      assert (d1 - 1) * DayMs >= d2 * DayMs by { MulMonotone(d2, d1 - 1, DayMs); }
    }
  }

  /** The owner's profile: everything but the password hash. */
  datatype ProfileResponse = ProfileResponse(
    id: string,
    username: string,
    commentCount: int,
    replyCount: int,
    createdAt: int,
    updatedAt: int,
    daysSinceJoined: nat)

  /** The public profile: it also leaves out replyCount and updatedAt. */
  datatype PublicProfileResponse = PublicProfileResponse(
    id: string,
    username: string,
    commentCount: int,
    createdAt: int,
    daysSinceJoined: nat)

  function ToProfile(u: User, now: int): (r: ProfileResponse)
    ensures r.id == u.id && r.username == u.username && r.commentCount == u.commentCount
    ensures r.replyCount == u.replyCount && r.createdAt == u.createdAt && r.updatedAt == u.updatedAt
    ensures r.daysSinceJoined == DaysSinceJoined(u.createdAt, now)
  {
    ProfileResponse(u.id, u.username, u.commentCount, u.replyCount, u.createdAt, u.updatedAt,
                    DaysSinceJoined(u.createdAt, now))
  }

  function ToPublicProfile(u: User, now: int): (r: PublicProfileResponse)
    ensures r.id == u.id && r.username == u.username && r.commentCount == u.commentCount
    ensures r.createdAt == u.createdAt
    ensures r.daysSinceJoined == DaysSinceJoined(u.createdAt, now)
  {
    PublicProfileResponse(u.id, u.username, u.commentCount, u.createdAt, DaysSinceJoined(u.createdAt, now))
  }

  /** The public profile is the owner's profile with fields removed: the
      fields both show agree, day count included. */
  lemma PublicProfileIsRestriction(u: User, now: int)
    ensures var p := ToProfile(u, now); var q := ToPublicProfile(u, now);
            q == PublicProfileResponse(p.id, p.username, p.commentCount, p.createdAt, p.daysSinceJoined)
  {
  }
}
