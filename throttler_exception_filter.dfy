/** The response written when a request is throttled: a message and a
    retry delay chosen from the request's URL and method, a 429 body, a
    Retry-After header and a human-readable hint. */
module ThrottleFilter {
  import opened Common

  /** The message and the delay in seconds chosen for a throttled request. */
  datatype Throttle = Throttle(message: string, retryAfter: nat)

  const DefaultThrottle := Throttle("Too many requests", 60)

  const LoginThrottle := Throttle("Too many login attempts. Please try again later.", 900)
  const RegisterThrottle := Throttle("Too many registration attempts. Please try again later.", 900)
  const CreateCommentThrottle := Throttle("You are creating comments too quickly. Please wait a moment.", 120)
  const UpdateCommentThrottle := Throttle("You are updating comments too quickly. Please wait a moment.", 180)
  const ProfileThrottle := Throttle("Profile updates are limited. Please wait before trying again.", 360)
  const PasswordThrottle := Throttle("Password change attempts are limited for security. Please wait.", 1200)
  const NotificationThrottle := Throttle("You are creating notifications too quickly. Please slow down.", 72)

  /** The classification: the first rule whose URL fragment (and method,
      where one is named) matches wins; otherwise the default. */
  function Classify(url: string, verb: string): (t: Throttle)
    ensures t.retryAfter in {60, 72, 120, 180, 360, 900, 1200}
    ensures Contains(url, "/auth/login") ==> t == LoginThrottle
    ensures (!Contains(url, "/auth/login") && Contains(url, "/auth/register")) ==> t == RegisterThrottle
    ensures (&& !Contains(url, "/auth/login") && !Contains(url, "/auth/register")
             && Contains(url, "/comments") && verb == "POST")
            ==> t == CreateCommentThrottle
    ensures (&& !Contains(url, "/auth/login") && !Contains(url, "/auth/register")
             && Contains(url, "/comments") && verb == "PUT")
            ==> t == UpdateCommentThrottle
    ensures (&& !Contains(url, "/auth/login") && !Contains(url, "/auth/register")
             && !(Contains(url, "/comments") && (verb == "POST" || verb == "PUT"))
             && Contains(url, "/users/profile") && verb == "PUT")
            ==> t == ProfileThrottle
    ensures (&& !Contains(url, "/auth/login") && !Contains(url, "/auth/register")
             && !(Contains(url, "/comments") && (verb == "POST" || verb == "PUT"))
             && !(Contains(url, "/users/profile") && verb == "PUT")
             && Contains(url, "/users/password"))
            ==> t == PasswordThrottle
    ensures (&& !Contains(url, "/auth/login") && !Contains(url, "/auth/register")
             && !(Contains(url, "/comments") && (verb == "POST" || verb == "PUT"))
             && !(Contains(url, "/users/profile") && verb == "PUT")
             && !Contains(url, "/users/password")
             && Contains(url, "/notifications") && verb == "POST")
            ==> t == NotificationThrottle
    ensures t == DefaultThrottle <==>
              && !Contains(url, "/auth/login") && !Contains(url, "/auth/register")
              && !(Contains(url, "/comments") && (verb == "POST" || verb == "PUT"))
              && !(Contains(url, "/users/profile") && verb == "PUT")
              && !Contains(url, "/users/password")
              && !(Contains(url, "/notifications") && verb == "POST")
  {
    if Contains(url, "/auth/login") then LoginThrottle
    else if Contains(url, "/auth/register") then RegisterThrottle
    else if Contains(url, "/comments") && verb == "POST" then CreateCommentThrottle
    else if Contains(url, "/comments") && verb == "PUT" then UpdateCommentThrottle
    else if Contains(url, "/users/profile") && verb == "PUT" then ProfileThrottle
    else if Contains(url, "/users/password") then PasswordThrottle
    else if Contains(url, "/notifications") && verb == "POST" then NotificationThrottle
    else DefaultThrottle
  }

  /** One row of the filter's rule table: a URL fragment, the method it is
      limited to (any method when absent) and the throttle it selects. */
  datatype Rule = Rule(fragment: string, verb: Option<string>, throttle: Throttle)

  /** The filter's rules in the order it tries them. */
  const Rules: seq<Rule> := [
    Rule("/auth/login", None, LoginThrottle),
    Rule("/auth/register", None, RegisterThrottle),
    Rule("/comments", Some("POST"), CreateCommentThrottle),
    Rule("/comments", Some("PUT"), UpdateCommentThrottle),
    Rule("/users/profile", Some("PUT"), ProfileThrottle),
    Rule("/users/password", None, PasswordThrottle),
    Rule("/notifications", Some("POST"), NotificationThrottle)
  ]

  predicate RuleMatches(r: Rule, url: string, verb: string) {
    Contains(url, r.fragment) && (r.verb.None? || r.verb.value == verb)
  }

  /** The throttle of the first matching rule of a table, or the default. */
  function FirstMatch(rules: seq<Rule>, url: string, verb: string): (t: Throttle)
    ensures t == DefaultThrottle || exists i :: 0 <= i < |rules| && rules[i].throttle == t
  {
    if rules == [] then DefaultThrottle
    else if RuleMatches(rules[0], url, verb) then rules[0].throttle
    else FirstMatch(rules[1..], url, verb)
  }

  /** A table lookup picks the earliest matching rule: rule i wins exactly
      when it matches and no earlier rule does. */
  lemma {:induction false} FirstMatchPicksEarliest(rules: seq<Rule>, url: string, verb: string, i: nat)
    requires i < |rules| && RuleMatches(rules[i], url, verb)
    requires forall j :: 0 <= j < i ==> !RuleMatches(rules[j], url, verb)
    ensures FirstMatch(rules, url, verb) == rules[i].throttle
  {
    if i > 0 {
      assert !RuleMatches(rules[0], url, verb);
      assert forall j :: 0 <= j < i - 1 ==> rules[1..][j] == rules[j + 1];
      FirstMatchPicksEarliest(rules[1..], url, verb, i - 1);
    }
  }

  /** With no matching rule the lookup falls through to the default. */
  lemma {:induction false} FirstMatchDefault(rules: seq<Rule>, url: string, verb: string)
    requires forall j :: 0 <= j < |rules| ==> !RuleMatches(rules[j], url, verb)
    ensures FirstMatch(rules, url, verb) == DefaultThrottle
  {
    if rules != [] {
      assert forall j :: 0 <= j < |rules| - 1 ==> rules[1..][j] == rules[j + 1];
      FirstMatchDefault(rules[1..], url, verb);
    }
  }

  /** The filter's chain of conditions is the first-match lookup of its rule
      table: every request gets the throttle of the earliest rule it matches,
      and the default when it matches none. */
  lemma ClassifyIsFirstMatch(url: string, verb: string)
    ensures Classify(url, verb) == FirstMatch(Rules, url, verb)
  {
    if Contains(url, "/auth/login") {
      FirstMatchPicksEarliest(Rules, url, verb, 0);
    } else if Contains(url, "/auth/register") {
      FirstMatchPicksEarliest(Rules, url, verb, 1);
    } else if Contains(url, "/comments") && verb == "POST" {
      FirstMatchPicksEarliest(Rules, url, verb, 2);
    } else if Contains(url, "/comments") && verb == "PUT" {
      FirstMatchPicksEarliest(Rules, url, verb, 3);
    } else if Contains(url, "/users/profile") && verb == "PUT" {
      FirstMatchPicksEarliest(Rules, url, verb, 4);
    } else if Contains(url, "/users/password") {
      FirstMatchPicksEarliest(Rules, url, verb, 5);
    } else if Contains(url, "/notifications") && verb == "POST" {
      FirstMatchPicksEarliest(Rules, url, verb, 6);
    } else {
      FirstMatchDefault(Rules, url, verb);
    }
  }

  /** A delay in words: seconds below a minute, whole minutes (rounded up)
      below an hour, whole hours (rounded up) beyond. Only minutes and hours
      have a singular form. */
  function FormatRetryAfter(seconds: nat): (r: string)
  {
    if seconds < 60 then NatToString(seconds) + " seconds"
    else if seconds < 3600 then
      var minutes := CeilDiv(seconds, 60);
      NatToString(minutes) + " minute" + (if minutes > 1 then "s" else "")
    else
      var hours := CeilDiv(seconds, 3600);
      NatToString(hours) + " hour" + (if hours > 1 then "s" else "")
  }

  /** The unit is singular exactly at one minute and at one hour; text below
      a minute is always plural. */
  lemma SingularExactlyAtOneUnit(seconds: nat)
    ensures 60 <= seconds < 3600 ==>
              (FormatRetryAfter(seconds) == "1 minute" <==> seconds == 60)
    ensures seconds >= 3600 ==>
              (FormatRetryAfter(seconds) == "1 hour" <==> seconds == 3600)
    ensures seconds < 60 ==> FormatRetryAfter(seconds) == NatToString(seconds) + " seconds"
  {
    if 60 <= seconds < 3600 {
      var m := CeilDiv(seconds, 60);
      if seconds > 60 {
        assert m >= 2;
        assert NatToString(m)[0] != '1' || |NatToString(m) + " minute" + "s"| > |"1 minute"|;
      }
    }
    if seconds >= 3600 {
      var h := CeilDiv(seconds, 3600);
      if seconds > 3600 {
        assert h >= 2;
        assert |NatToString(h) + " hour" + "s"| > |"1 hour"|;
      }
    }
  }

  /** Seventy-two seconds is two minutes, not one: the minutes are rounded
      up; a quarter of an hour stays in minutes. */
  lemma RuleDelaysInWords()
    ensures FormatRetryAfter(72) == "2 minutes"
    ensures FormatRetryAfter(900) == "15 minutes"
  {
    assert CeilDiv(72, 60) == 2;
    assert NatToString(2) == "2";
    assert CeilDiv(900, 60) == 15;
    assert NatToString(15) == NatToString(1) + "5";
  }

  /** The 429 response body, without its timestamp. */
  datatype ThrottleResponse = ThrottleResponse(
    statusCode: nat,
    message: string,
    error: string,
    path: string,
    retryAfter: nat,
    hint: string)

  /** The response status, its Retry-After header value and its body. */
  datatype Reply = Reply(status: nat, retryAfterHeader: string, body: ThrottleResponse)

  function Catch(url: string, verb: string): (r: Reply)
    ensures r.status == 429 && r.body.statusCode == 429
    ensures r.body.error == "Too Many Requests" && r.body.path == url
    ensures r.body.message == Classify(url, verb).message
    ensures r.body.retryAfter == Classify(url, verb).retryAfter
    ensures r.retryAfterHeader == NatToString(r.body.retryAfter)
    ensures r.body.hint == "Please wait " + FormatRetryAfter(r.body.retryAfter) + " before trying again."
  {
    var t := Classify(url, verb);
    Reply(429, NatToString(t.retryAfter),
          ThrottleResponse(429, t.message, "Too Many Requests", url, t.retryAfter,
                           "Please wait " + FormatRetryAfter(t.retryAfter) + " before trying again."))
  }

  /** Every throttled request is told to wait some number of minutes: no
      rule's delay is below a minute or reaches an hour. */
  lemma HintsAreInMinutes(url: string, verb: string)
    ensures 60 <= Catch(url, verb).body.retryAfter < 3600
    ensures var s := Catch(url, verb).body.retryAfter;
            FormatRetryAfter(s) == NatToString(CeilDiv(s, 60)) + " minute" + (if s > 60 then "s" else "")
  {
    var s := Catch(url, verb).body.retryAfter;
    if s > 60 {
      assert CeilDiv(s, 60) > 1;
    }
  }
}
