/** The in-memory WebSocket rate limiter: fixed-window counters for connection
    attempts (keyed `conn:<ip>`) and messages (keyed `msg:<userId>`), and a
    live gauge of connections per user capped at five. The clock is the `now`
    parameter, in milliseconds. */
module WsThrottler {
  import opened Common
  import Tally

  /** customRateLimits.websocket: 10 connection attempts and 60 messages per
      60-second window. */
  const ConnectionLimit: int := 10
  const ConnectionTtl: int := 60000
  const MessageLimit: int := 60
  const MessageTtl: int := 60000
  /** The per-user cap tested by checkUserConnectionLimit. */
  const MaxConnectionsPerUser: int := 5

  datatype RateLimitEntry = RateLimitEntry(count: int, resetTime: int)

  type Window = map<string, RateLimitEntry>

  /** The verdict of one fixed-window check and the store it leaves. */
  datatype Check = Check(allowed: bool, store: Window)

  /** A window is live until `now` passes its reset time. */
  predicate IsLive(store: Window, key: string, now: int) {
    key in store && now <= store[key].resetTime
  }

  /** The generic fixed-window check: a missing or expired entry opens a new
      window holding one request; a live entry that has reached the limit
      rejects; otherwise its count goes up by one. */
  function Admit(store: Window, key: string, limit: int, ttl: int, now: int): Check {
    if !IsLive(store, key, now) then
      Check(true, store[key := RateLimitEntry(1, now + ttl)])
    else if store[key].count >= limit then
      Check(false, store)
    else
      Check(true, store[key := store[key].(count := store[key].count + 1)])
  }

  /** Every entry of the store counts between 1 and limit requests. */
  ghost predicate WithinLimit(store: Window, limit: int) {
    forall k :: k in store ==> 1 <= store[k].count <= limit
  }

  /** A rejection happens exactly on a live entry whose count has reached the
      limit, and it leaves the store as it was. */
  lemma RejectLeavesStoreUnchanged(store: Window, key: string, limit: int, ttl: int, now: int)
    ensures !Admit(store, key, limit, ttl, now).allowed <==>
              IsLive(store, key, now) && store[key].count >= limit
    ensures !Admit(store, key, limit, ttl, now).allowed ==> Admit(store, key, limit, ttl, now).store == store
  {
  }

  /** A missing entry, or one whose reset time has passed, opens a fresh
      window of one request ending ttl from now, even when the limit is 0. A
      window is still live at exactly its reset time. */
  lemma FreshWindow(store: Window, key: string, limit: int, ttl: int, now: int)
    ensures (key !in store || now > store[key].resetTime) ==>
              Admit(store, key, limit, ttl, now) == Check(true, store[key := RateLimitEntry(1, now + ttl)])
    ensures key in store && now == store[key].resetTime ==> IsLive(store, key, now)
  {
  }

  /** A check reads and writes only its own key. */
  lemma OnlyOwnKey(store: Window, key: string, limit: int, ttl: int, now: int, other: string)
    requires other != key
    ensures var s' := Admit(store, key, limit, ttl, now).store;
            (other in s' <==> other in store) && (other in store ==> s'[other] == store[other])
    ensures key in Admit(store, key, limit, ttl, now).store
  {
  }

  /** With a limit of at least one, checking keeps every count within the
      limit: the count never exceeds it. */
  lemma AdmitKeepsWithinLimit(store: Window, key: string, limit: int, ttl: int, now: int)
    requires limit >= 1 && WithinLimit(store, limit)
    ensures WithinLimit(Admit(store, key, limit, ttl, now).store, limit)
  {
    var s' := Admit(store, key, limit, ttl, now).store;
    forall k | k in s' ensures 1 <= s'[k].count <= limit {
      if k != key {
        assert k in store;
      }
    }
  }

  /** The verdicts and final store of a burst of checks on one key at the
      given times, in order. */
  function Burst(store: Window, key: string, limit: int, ttl: int, times: seq<int>): (r: (nat, Window))
    decreases |times|
  {
    if times == [] then (0, store)
    else
      var c := Admit(store, key, limit, ttl, times[0]);
      var rest := Burst(c.store, key, limit, ttl, times[1..]);
      ((if c.allowed then 1 else 0) + rest.0, rest.1)
  }

  /** While one window stays live, a burst is allowed exactly until the count
      reaches the limit: of n further calls, min(n, limit - count) pass, and
      the count grows by that many with the reset time unchanged. */
  lemma {:induction false} BurstInLiveWindow(store: Window, key: string, limit: int, ttl: int, times: seq<int>)
    requires key in store && store[key].count <= limit
    requires forall i :: 0 <= i < |times| ==> times[i] <= store[key].resetTime
    ensures var r := Burst(store, key, limit, ttl, times);
            r.0 == Min(|times|, limit - store[key].count)
            && key in r.1 && r.1[key] == store[key].(count := store[key].count + r.0)
    decreases |times|
  {
    if times != [] {
      var c := Admit(store, key, limit, ttl, times[0]);
      assert IsLive(store, key, times[0]);
      BurstInLiveWindow(c.store, key, limit, ttl, times[1..]);
    }
  }

  /** For a limit of at least one, of n calls on a new key made no later than
      ttl after the first, exactly min(n, limit) are allowed. */
  lemma AtMostLimitPerWindow(store: Window, key: string, limit: int, ttl: int, times: seq<int>)
    requires limit >= 1 && ttl >= 0 && key !in store && |times| >= 1
    requires forall i :: 0 <= i < |times| ==> times[i] <= times[0] + ttl
    ensures Burst(store, key, limit, ttl, times).0 == Min(|times|, limit)
  {
    var c := Admit(store, key, limit, ttl, times[0]);
    assert c == Check(true, store[key := RateLimitEntry(1, times[0] + ttl)]);
    forall i | 0 <= i < |times[1..]| ensures times[1..][i] <= c.store[key].resetTime {
      assert times[1..][i] == times[i + 1];
    }
    BurstInLiveWindow(c.store, key, limit, ttl, times[1..]);
  }

  /** What the sweep keeps: exactly the windows that are still live. */
  function Sweep(store: Window, now: int): Window {
    map k | k in store && now <= store[k].resetTime :: store[k]
  }

  /** Sweeping is invisible to later checks: a check at time t >= now gives the
      same verdict on the swept store, and sweeping afterwards gives the same
      store. So the sweep never evicts a window that is still in force. */
  lemma SweepIsInvisible(store: Window, key: string, limit: int, ttl: int, now: int, t: int)
    requires t >= now && ttl >= 0
    ensures Admit(Sweep(store, now), key, limit, ttl, t).allowed == Admit(store, key, limit, ttl, t).allowed
    ensures Admit(Sweep(store, now), key, limit, ttl, t).store == Sweep(Admit(store, key, limit, ttl, t).store, now)
  {
    var left := Admit(Sweep(store, now), key, limit, ttl, t).store;
    var right := Sweep(Admit(store, key, limit, ttl, t).store, now);
    assert IsLive(Sweep(store, now), key, t) <==> IsLive(store, key, t);
    forall k ensures (k in left <==> k in right) && (k in left ==> left[k] == right[k]) {
    }
    assert left == right;
  }

  /** The connection count of a user; a user without an entry has none. */
  function ConnectionsOf(m: map<string, int>, userId: string): int {
    if userId in m then m[userId] else 0
  }

  function WithConnection(m: map<string, int>, userId: string): map<string, int> {
    m[userId := ConnectionsOf(m, userId) + 1]
  }

  function WithoutConnection(m: map<string, int>, userId: string): map<string, int> {
    if ConnectionsOf(m, userId) > 0 then m[userId := ConnectionsOf(m, userId) - 1] else m
  }

  /** What the sweep keeps of the gauge: the users with a non-zero count. */
  function DropZero(m: map<string, int>): map<string, int> {
    map u | u in m && m[u] != 0 :: m[u]
  }

  /** Adding a connection raises that user's count, and the total, by exactly
      one and changes no other user. */
  lemma AddConnectionRaisesByOne(m: map<string, int>, userId: string, other: string)
    requires other != userId
    ensures ConnectionsOf(WithConnection(m, userId), userId) == ConnectionsOf(m, userId) + 1
    ensures ConnectionsOf(WithConnection(m, userId), other) == ConnectionsOf(m, other)
    ensures Tally.Sum(WithConnection(m, userId)) == Tally.Sum(m) + 1
  {
    Tally.SumUpdate(m, userId, ConnectionsOf(m, userId) + 1);
  }

  /** Removing a connection lowers a positive count by one and leaves a zero
      or missing count alone, so counts never go negative; a count that
      reaches zero keeps its entry. */
  lemma RemoveConnectionNeverNegative(m: map<string, int>, userId: string)
    requires forall u :: u in m ==> m[u] >= 0
    ensures var m' := WithoutConnection(m, userId);
            (forall u :: u in m' ==> m'[u] >= 0)
            && ConnectionsOf(m', userId) == Max(0, ConnectionsOf(m, userId) - 1)
            && m'.Keys == m.Keys
            && Tally.Sum(m') == Tally.Sum(m) - (if ConnectionsOf(m, userId) > 0 then 1 else 0)
  {
    if ConnectionsOf(m, userId) > 0 {
      Tally.SumUpdate(m, userId, ConnectionsOf(m, userId) - 1);
    }
  }

  /** Dropping zero counts changes neither any user's count nor the total. */
  lemma {:induction false} DropZeroIsInvisible(m: map<string, int>, userId: string)
    ensures ConnectionsOf(DropZero(m), userId) == ConnectionsOf(m, userId)
    ensures Tally.Sum(DropZero(m)) == Tally.Sum(m)
    decreases |m|
  {
    var zeros := set u | u in m && m[u] == 0;
    if zeros != {} {
      var z :| z in zeros;
      Tally.SumRemoveZero(m, z);
      DropZeroIsInvisible(m - {z}, userId);
      assert DropZero(m - {z}) == DropZero(m);
    } else {
      forall u | u in m ensures m[u] != 0 {
        assert u !in zeros;
      }
      assert DropZero(m) == m;
    }
  }

  datatype Stats = Stats(connectionAttempts: int, messageRates: int, userConnections: int, totalConnections: int)

  /** A mutable map of rate-limit windows, passed by reference to the check
      and the sweep like the JavaScript Map it models. */
  class RateLimitStore {
    var entries: Window

    constructor ()
      ensures entries == map[]
    {
      entries := map[];
    }
  }

  class WebSocketThrottler {
    const connectionAttempts: RateLimitStore
    const messageRates: RateLimitStore
    var userConnections: map<string, int>

    /** The two window stores are distinct objects, their counts stay within
        their limits, and no user's connection count is negative. */
    ghost predicate Valid()
      reads this, connectionAttempts, messageRates
    {
      && connectionAttempts != messageRates
      && WithinLimit(connectionAttempts.entries, ConnectionLimit)
      && WithinLimit(messageRates.entries, MessageLimit)
      && forall u :: u in userConnections ==> userConnections[u] >= 0
    }

    constructor ()
      ensures Valid() && fresh(connectionAttempts) && fresh(messageRates)
      ensures connectionAttempts.entries == map[] && messageRates.entries == map[]
      ensures userConnections == map[]
    {
      connectionAttempts := new RateLimitStore();
      messageRates := new RateLimitStore();
      userConnections := map[];
    }

    /** checkLimit: applies one fixed-window check to the given store. */
    method CheckLimit(store: RateLimitStore, key: string, limit: int, ttl: int, now: int) returns (allowed: bool)
      modifies store
      ensures Check(allowed, store.entries) == Admit(old(store.entries), key, limit, ttl, now)
    {
      if key !in store.entries || now > store.entries[key].resetTime {
        store.entries := store.entries[key := RateLimitEntry(1, now + ttl)];
        return true;
      }
      var entry := store.entries[key];
      if entry.count >= limit {
        return false;
      }
      store.entries := store.entries[key := entry.(count := entry.count + 1)];
      allowed := true;
    }

    method CheckConnectionLimit(ip: string, now: int) returns (allowed: bool)
      requires Valid()
      modifies connectionAttempts
      ensures Valid()
      ensures Check(allowed, connectionAttempts.entries)
              == Admit(old(connectionAttempts.entries), "conn:" + ip, ConnectionLimit, ConnectionTtl, now)
    {
      AdmitKeepsWithinLimit(connectionAttempts.entries, "conn:" + ip, ConnectionLimit, ConnectionTtl, now);
      allowed := CheckLimit(connectionAttempts, "conn:" + ip, ConnectionLimit, ConnectionTtl, now);
    }

    method CheckMessageLimit(userId: string, now: int) returns (allowed: bool)
      requires Valid()
      modifies messageRates
      ensures Valid()
      ensures Check(allowed, messageRates.entries)
              == Admit(old(messageRates.entries), "msg:" + userId, MessageLimit, MessageTtl, now)
    {
      AdmitKeepsWithinLimit(messageRates.entries, "msg:" + userId, MessageLimit, MessageTtl, now);
      allowed := CheckLimit(messageRates, "msg:" + userId, MessageLimit, MessageTtl, now);
    }

    /** A user may open another connection while fewer than five are live. */
    method CheckUserConnectionLimit(userId: string) returns (ok: bool)
      ensures ok <==> ConnectionsOf(userConnections, userId) < MaxConnectionsPerUser
    {
      var current := if userId in userConnections then userConnections[userId] else 0;
      ok := current < 5;
    }

    method AddConnection(userId: string)
      requires Valid()
      modifies this
      ensures Valid()
      ensures userConnections == WithConnection(old(userConnections), userId)
    {
      var current := if userId in userConnections then userConnections[userId] else 0;
      userConnections := userConnections[userId := current + 1];
    }

    method RemoveConnection(userId: string)
      requires Valid()
      modifies this
      ensures Valid()
      ensures userConnections == WithoutConnection(old(userConnections), userId)
    {
      var current := if userId in userConnections then userConnections[userId] else 0;
      if current > 0 {
        userConnections := userConnections[userId := current - 1];
      }
    }

    /** One sweep loop of cleanup: deletes the expired windows of a store. */
    method SweepStore(store: RateLimitStore, now: int)
      modifies store
      ensures store.entries == Sweep(old(store.entries), now)
    {
      var keys := store.entries.Keys;
      while keys != {}
        invariant keys <= old(store.entries).Keys
        invariant store.entries == map k | k in old(store.entries) && (k in keys || now <= old(store.entries)[k].resetTime)
                                     :: old(store.entries)[k]
        decreases keys
      {
        var k :| k in keys;
        if now > store.entries[k].resetTime {
          store.entries := store.entries - {k};
        }
        keys := keys - {k};
      }
    }

    /** cleanup: sweeps both window stores and drops the users whose count is 0. */
    method Cleanup(now: int)
      requires Valid()
      modifies this, connectionAttempts, messageRates
      ensures Valid()
      ensures connectionAttempts.entries == Sweep(old(connectionAttempts.entries), now)
      ensures messageRates.entries == Sweep(old(messageRates.entries), now)
      ensures userConnections == DropZero(old(userConnections))
    {
      SweepStore(connectionAttempts, now);
      SweepStore(messageRates, now);
      assert WithinLimit(connectionAttempts.entries, ConnectionLimit);
      assert WithinLimit(messageRates.entries, MessageLimit);
      var users := userConnections.Keys;
      while users != {}
        modifies this
        invariant users <= old(userConnections).Keys
        invariant userConnections == map u | u in old(userConnections) && (u in users || old(userConnections)[u] != 0)
                                       :: old(userConnections)[u]
        decreases users
      {
        var u :| u in users;
        if userConnections[u] == 0 {
          userConnections := userConnections - {u};
        }
        users := users - {u};
      }
    }

    /** getStats: the three map sizes and the total of all connection counts. */
    method GetStats() returns (stats: Stats)
      ensures stats.connectionAttempts == |connectionAttempts.entries|
      ensures stats.messageRates == |messageRates.entries|
      ensures stats.userConnections == |userConnections|
      ensures stats.totalConnections == Tally.Sum(userConnections)
    {
      var total := 0;
      var rest := userConnections.Keys;
      while rest != {}
        invariant rest <= userConnections.Keys
        invariant total + Tally.SumOver(userConnections, rest) == Tally.Sum(userConnections)
        decreases rest
      {
        var u :| u in rest;
        Tally.SumOverRemove(userConnections, rest, u);
        total := total + userConnections[u];
        rest := rest - {u};
      }
      stats := Stats(|connectionAttempts.entries|, |messageRates.entries|, |userConnections|, total);
    }
  }
}
