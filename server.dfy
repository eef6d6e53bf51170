/** Session management and input sanitisation of the web front end
    (application/server/server.go).

    The process-wide tables `mapSessions` (cookie token -> Session),
    `mapUsers` (username -> UserInfo) and the time of the last sweep
    `mapSessionCleaned` are the fields of one `SessionServer` object. Time is
    integer Unix seconds and the clock is a parameter `now`; the Go zero
    `time.Time` (0001-01-01 00:00:00 UTC) is `ZeroTime`. A request's cookie
    is an `Option<Cookie>`: None when the request carries no "PeelRescue"
    cookie. What the foreign libraries decide (the validator struct tags,
    bcrypt, the user database, uuid) is passed in as booleans or options. */
module Server {
  import opened Text
  import opened Items

  /** The Go zero time.Time in Unix seconds. */
  const ZeroTime: int := -62135596800
  /** config.SessionExpireTime, in seconds. */
  const SessionExpireTime: int := 300
  /** config.CleanSessionTime, in seconds. */
  const CleanSessionTime: int := 120

  datatype Session = Session(username: string, lastActivity: int)
  datatype UserInfo = UserInfo(username: string, isBuyer: bool)
  /** The zero UserInfo. */
  const NoUser := UserInfo("", false)
  /** The "PeelRescue" cookie, reduced to its value and MaxAge. */
  datatype Cookie = Cookie(value: string, maxAge: int)

  /** `mapSessions[token]`: Go yields the zero Session for a missing key. */
  function SessionOf(m: map<string, Session>, token: string): Session {
    if token in m then m[token] else Session("", ZeroTime)
  }

  // ---------------------------------------------------------------------
  // The session table
  // ---------------------------------------------------------------------

  /** Some session in `m` belongs to `username`. */
  ghost predicate HasSessionOf(m: map<string, Session>, username: string) {
    exists t | t in m :: m[t].username == username
  }

  /** No session but the one under `t` belongs to its user. */
  ghost predicate OnlySessionOf(m: map<string, Session>, t: string)
    requires t in m
  {
    forall u | u in m && u != t :: m[u].username != m[t].username
  }

  /** What login keeps of the table: every session has a user, and no user
      has two. */
  ghost predicate WellFormed(m: map<string, Session>) {
    && (forall t | t in m :: m[t].username != "")
    && (forall t | t in m :: OnlySessionOf(m, t))
  }

  /** Dropping sessions keeps the table well formed. */
  lemma WellFormedSubmap(m: map<string, Session>, m': map<string, Session>)
    requires WellFormed(m)
    requires forall t | t in m' :: t in m && m'[t] == m[t]
    ensures WellFormed(m')
  {
    forall t | t in m'
      ensures OnlySessionOf(m', t)
    {
      assert OnlySessionOf(m, t);
    }
  }

  /** A session for a user who has none keeps the table well formed, even
      when it replaces the session under the same token. */
  lemma WellFormedAdd(m: map<string, Session>, t: string, s: Session)
    requires WellFormed(m) && s.username != "" && !HasSessionOf(m, s.username)
    ensures WellFormed(m[t := s])
  {
    var m' := m[t := s];
    forall u | u in m'
      ensures OnlySessionOf(m', u)
    {
      if u != t {
        assert OnlySessionOf(m, u);
        assert m'[u] == m[u];
      }
    }
  }

  /** Touching a session without changing its user keeps the table well formed. */
  lemma WellFormedTouch(m: map<string, Session>, t: string, time: int)
    requires WellFormed(m) && t in m
    ensures WellFormed(m[t := Session(m[t].username, time)])
  {
    var m' := m[t := Session(m[t].username, time)];
    forall u | u in m'
      ensures OnlySessionOf(m', u)
    {
      assert OnlySessionOf(m, u);
    }
  }

  /** The session has been idle for longer than SessionExpireTime. */
  predicate Expired(s: Session, now: int)
    // A session touched at `now` is fresh; one from the zero time is stale.
    ensures s.lastActivity == now ==> !Expired(s, now)
    ensures s.lastActivity == ZeroTime && now > ZeroTime + SessionExpireTime ==> Expired(s, now)
  {
    now - s.lastActivity > SessionExpireTime
  }

  /** The table as cleanupSessions leaves it. */
  function Swept(m: map<string, Session>, now: int): (r: map<string, Session>)
    ensures forall t | t in m && !Expired(m[t], now) :: t in r
  {
    map t | t in m && !Expired(m[t], now) :: m[t]
  }

  /** A sweep only removes, it removes nothing fresh, and sweeping twice at
      the same time is sweeping once. */
  lemma SweptProperties(m: map<string, Session>, now: int)
    ensures forall t | t in Swept(m, now) :: t in m && Swept(m, now)[t] == m[t] && !Expired(m[t], now)
    ensures Swept(Swept(m, now), now) == Swept(m, now)
    ensures WellFormed(m) ==> WellFormed(Swept(m, now))
  {
    if WellFormed(m) {
      WellFormedSubmap(m, Swept(m, now));
    }
  }

  /** A table that keeps exactly the fresh sessions, unchanged, is the sweep. */
  lemma SweptIs(m: map<string, Session>, s: map<string, Session>, now: int)
    requires forall t | t in s :: t in m && s[t] == m[t]
    requires forall t | t in m :: t in s <==> !Expired(m[t], now)
    ensures s == Swept(m, now)
  {
  }

  /** findInMap: the loop over the table's sessions that looks for one of
      the user. */
  method FindInMap(m: map<string, Session>, username: string) returns (found: bool)
    ensures found <==> HasSessionOf(m, username)
  {
    var rest := m.Keys;
    while rest != {}
      invariant rest <= m.Keys
      invariant forall t | t in m && t !in rest :: m[t].username != username
      decreases rest
    {
      var t :| t in rest;
      if m[t].username == username {
        return true;
      }
      rest := rest - {t};
    }
    return false;
  }

  /** alreadyLoggedIn: a cookie with a non-negative MaxAge whose token maps
      to a session with a user name. */
  predicate AlreadyLoggedIn(m: map<string, Session>, cookie: Option<Cookie>)
    ensures AlreadyLoggedIn(m, cookie) ==>
      cookie.Some? && cookie.value.value in m && m[cookie.value.value].username != ""
  {
    cookie.Some? && cookie.value.maxAge >= 0 && SessionOf(m, cookie.value.value).username != ""
  }

  /** In a well-formed table, being logged in is holding a live cookie whose
      token is in the table. */
  lemma LoggedInIsKnownToken(m: map<string, Session>, cookie: Option<Cookie>)
    requires WellFormed(m)
    ensures AlreadyLoggedIn(m, cookie) <==> cookie.Some? && cookie.value.maxAge >= 0 && cookie.value.value in m
  {
  }

  /** checkTimeOut: strictly after the last activity plus SessionExpireTime,
      or the cookie's MaxAge is negative. */
  predicate CheckTimeOut(m: map<string, Session>, cookie: Cookie, now: int)
    ensures cookie.value in m ==> (CheckTimeOut(m, cookie, now) <==> Expired(m[cookie.value], now) || cookie.maxAge < 0)
    ensures cookie.maxAge < 0 ==> CheckTimeOut(m, cookie, now)
  {
    now > SessionOf(m, cookie.value).lastActivity + SessionExpireTime || cookie.maxAge < 0
  }

  /** An unknown token dates from the zero time, so it has timed out at any
      time later than ZeroTime + SessionExpireTime. */
  lemma UnknownTokenTimedOut(m: map<string, Session>, cookie: Cookie, now: int)
    requires cookie.value !in m && now > ZeroTime + SessionExpireTime
    ensures CheckTimeOut(m, cookie, now)
  {
  }

  /** For a live cookie, having timed out is exactly what makes the sweep
      remove the session. */
  lemma TimeOutIsSweep(m: map<string, Session>, cookie: Cookie, now: int)
    requires cookie.value in m && cookie.maxAge >= 0
    ensures CheckTimeOut(m, cookie, now) <==> cookie.value !in Swept(m, now)
  {
    SweptProperties(m, now);
  }

  // ---------------------------------------------------------------------
  // Sanitisation
  // ---------------------------------------------------------------------

  /** The characters regexp.QuoteMeta escapes. */
  const MetaChars: string := "\\.+*?()|[]{}^$"

  /** `regexp.QuoteMeta(s) == s`: no character needs escaping. */
  predicate QuoteMetaUnchanged(s: string) {
    forall i | 0 <= i < |s| :: s[i] !in MetaChars
  }

  /** `^[a-zA-Z]+\w*$`: a non-empty run of letters, then word characters. */
  predicate UsernamePattern(s: string) {
    exists i | 1 <= i <= |s| :: AllLetters(s[..i]) && AllWordChars(s[i..])
  }

  /** The pattern says: a letter first, word characters after it. */
  lemma UsernamePatternShape(s: string)
    ensures UsernamePattern(s) <==> |s| >= 1 && IsLetter(s[0]) && forall j | 1 <= j < |s| :: IsWordChar(s[j])
  {
    if UsernamePattern(s) {
      var i :| 1 <= i <= |s| && AllLetters(s[..i]) && AllWordChars(s[i..]);
      assert s[0] == s[..i][0];
      forall j | 1 <= j < |s|
        ensures IsWordChar(s[j])
      {
        if j < i {
          assert s[j] == s[..i][j];
        } else {
          assert s[j] == s[i..][j - i];
        }
      }
    }
    if |s| >= 1 && IsLetter(s[0]) && forall j | 1 <= j < |s| :: IsWordChar(s[j]) {
      assert AllLetters(s[..1]);
      assert forall j | 0 <= j < |s| - 1 :: s[1..][j] == s[j + 1];
      assert AllWordChars(s[1..]);
    }
  }

  /** A name the pattern accepts never needs quoting, so the QuoteMeta test
      in front of it rejects nothing the pattern would accept. */
  lemma PatternNeedsNoQuoting(s: string)
    requires UsernamePattern(s)
    ensures QuoteMetaUnchanged(s)
  {
    UsernamePatternShape(s);
    forall i | 0 <= i < |s|
      ensures s[i] !in MetaChars
    {
      assert IsWordChar(s[i]);
    }
  }

  /** The password test: it contains neither the two characters `\s` nor
      the three characters `%00`. */
  predicate PasswordClean(p: string) {
    !Contains(p, "\\s") && !Contains(p, "%00")
  }

  /** The test looks for the literal text `\s`, not for white space: a
      password without a backslash or a percent sign passes, spaces and all. */
  lemma PasswordWithoutMarkersPasses(p: string)
    requires '\\' !in p && '%' !in p
    ensures PasswordClean(p)
  {
    if Contains(p, "\\s") {
      ContainsFirst(p, "\\s");
    }
    if Contains(p, "%00") {
      ContainsFirst(p, "%00");
    }
  }

  /** loginSanitization. */
  predicate LoginSanitization(username: string, password: string)
    ensures LoginSanitization(username, password) <==>
      && |username| >= 1 && IsLetter(username[0])
      && (forall j | 1 <= j < |username| :: IsWordChar(username[j]))
      && PasswordClean(password)
  {
    UsernamePatternShape(username);
    assert UsernamePattern(username) ==> QuoteMetaUnchanged(username) by {
      if UsernamePattern(username) {
        PatternNeedsNoQuoting(username);
      }
    }
    QuoteMetaUnchanged(username) && UsernamePattern(username) && PasswordClean(password)
  }

  /** What the sign-up form posts. */
  datatype SignupInput = SignupInput(username: string, password: string, fullname: string,
                                     phone: string, address: string, email: string)

  /** signupSanitization: the same test as loginSanitization; a name that
      passes is lowercased, the password and every other field are passed
      through unchanged. */
  function SignupSanitization(si: SignupInput): (r: (SignupInput, bool))
    ensures r.1 == LoginSanitization(si.username, si.password)
    ensures r.0 == si.(username := r.0.username)
    // The name is lowercased exactly when it passes its own checks, and is
    // passed through as typed otherwise.
    ensures r.0.username == if QuoteMetaUnchanged(si.username) && UsernamePattern(si.username)
                            then ToLowerAscii(si.username) else si.username
    ensures r.1 ==> LoginSanitization(r.0.username, r.0.password)
    ensures r.1 ==> forall i | 0 <= i < |r.0.username| :: !('A' <= r.0.username[i] <= 'Z')
  {
    var nameOk := QuoteMetaUnchanged(si.username) && UsernamePattern(si.username);
    LowercasedNameStillPasses(si.username);
    var out := if nameOk then si.(username := ToLowerAscii(si.username)) else si;
    (out, nameOk && PasswordClean(si.password))
  }

  /** Lowercasing an accepted name gives an accepted name. */
  lemma LowercasedNameStillPasses(s: string)
    ensures UsernamePattern(s) ==> UsernamePattern(ToLowerAscii(s)) && QuoteMetaUnchanged(ToLowerAscii(s))
    ensures forall i | 0 <= i < |s| :: !('A' <= ToLowerAscii(s)[i] <= 'Z')
  {
    ToLowerClasses(s);
    UsernamePatternShape(s);
    UsernamePatternShape(ToLowerAscii(s));
    if UsernamePattern(s) {
      PatternNeedsNoQuoting(ToLowerAscii(s));
    }
  }

  // ---------------------------------------------------------------------
  // The handlers that read and write the tables
  // ---------------------------------------------------------------------

  datatype Role = AdminRole | BuyerRole | SellerRole

  /** Where LoginHandler ends. */
  datatype LoginOutcome =
    | LoginForm                           // not a POST: the form is shown
    | LoginRejected                       // "Username and/or password do not match"
    | ConcurrentLogin                     // "You have already logged in on another machine."
    | LoginServerError                    // no UUID could be generated
    | LoggedIn(token: string, role: Role) // cookie set, session stored, redirected

  /** Where SignupHandler ends. */
  datatype SignupOutcome =
    | AlreadySignedIn        // logged in already: redirected to the landing page
    | SignupForm             // not a POST, or neither button
    | SignupReset            // "All values Reset"
    | SignupRejected         // "Invalid Username/Password"
    | SignupServerError      // bcrypt failed
    | DatabaseUnreachable    // the user record could not be inserted
    | Registered(username: string)

  /** What ActiveSession reports; `Aborted` is the nil-cookie dereference in
      deleteSession when the request has no cookie at all. */
  datatype SessionState = Active | Inactive | Aborted

  class SessionServer {
    var sessions: map<string, Session>
    var users: map<string, UserInfo>
    var cleaned: int
    const adminName: string
    const adminPw: string

    ghost predicate Valid()
      reads this
    {
      WellFormed(sessions)
    }

    /** The state after package init: the registered users read from the
        user database, no session, and no sweep yet. */
    constructor (registered: map<string, UserInfo>, adminName: string, adminPw: string)
      ensures Valid()
      ensures sessions == map[] && users == registered && cleaned == ZeroTime
      ensures this.adminName == adminName && this.adminPw == adminPw
    {
      sessions := map[];
      users := registered;
      cleaned := ZeroTime;
      this.adminName := adminName;
      this.adminPw := adminPw;
    }

    /** cleanupSessions: delete every session idle for longer than
        SessionExpireTime, then record the time of the sweep. */
    method CleanupSessions(now: int)
      requires Valid()
      modifies this
      ensures Valid()
      ensures sessions == Swept(old(sessions), now) && cleaned == now && users == old(users)
    {
      var s := sessions;
      var rest := s.Keys;
      while rest != {}
        invariant rest <= sessions.Keys
        invariant forall t | t in s :: t in sessions && s[t] == sessions[t]
        invariant forall t | t in sessions :: t in s <==> t in rest || !Expired(sessions[t], now)
        decreases rest
      {
        var t :| t in rest;
        if Expired(s[t], now) {
          s := s - {t};
        }
        rest := rest - {t};
      }
      SweptIs(sessions, s, now);
      SweptProperties(sessions, now);
      sessions := s;
      cleaned := now;
    }

    /** LoginHandler. The sweep it starts as a goroutine runs first, and only
        when more than CleanSessionTime has passed since the last one.
        `validationOk` is the validator's verdict, `inDatabase` whether the
        user database returns the record, `passwordMatches` bcrypt's, and
        `token` the new UUID (None when generation fails). */
    method Login(now: int, isPost: bool, username: string, password: string,
                 validationOk: bool, inDatabase: bool, passwordMatches: bool, token: Option<string>)
      returns (out: LoginOutcome)
      requires Valid()
      modifies this
      ensures Valid() && users == old(users)
      ensures cleaned == if old(now - cleaned > CleanSessionTime) then now else old(cleaned)
      ensures var base := if old(now - cleaned > CleanSessionTime) then Swept(old(sessions), now) else old(sessions);
        && (out.LoggedIn? ==> sessions == base[out.token := Session(username, now)])
        && (!out.LoggedIn? ==> sessions == base)
        && (out == ConcurrentLogin <==>
              isPost && validationOk && LoginSanitization(username, password) && HasSessionOf(base, username))
        && (out.LoggedIn? <==>
              && isPost && validationOk && LoginSanitization(username, password)
              && !HasSessionOf(base, username) && token.Some?
              && if username == adminName then password == adminPw
                 else username in old(users) && inDatabase && passwordMatches)
      ensures out.LoggedIn? ==> out.token == token.value && HasSessionOf(sessions, username)
      ensures out.LoggedIn? ==>
        out.role == if username == adminName then AdminRole
                    else if old(users)[username].isBuyer then BuyerRole else SellerRole
    {
      if now - cleaned > CleanSessionTime {
        CleanupSessions(now);
      }
      if !isPost {
        return LoginForm;
      }
      if !validationOk || !LoginSanitization(username, password) {
        return LoginRejected;
      }
      var concurrent := FindInMap(sessions, username);
      if concurrent {
        return ConcurrentLogin;
      }
      var role := AdminRole;
      if username == adminName {
        if adminPw != password {
          return LoginRejected;
        }
      } else {
        if username !in users || !inDatabase || !passwordMatches {
          return LoginRejected;
        }
        role := if users[username].isBuyer then BuyerRole else SellerRole;
      }
      if token.None? {
        return LoginServerError;
      }
      UsernamePatternShape(username);
      WellFormedAdd(sessions, token.value, Session(username, now));
      sessions := sessions[token.value := Session(username, now)];
      assert sessions[token.value].username == username;
      out := LoggedIn(token.value, role);
    }

    /** LogoutHandler: without a cookie it only redirects; otherwise the
        token's session is deleted (deleting an absent one changes nothing). */
    method Logout(cookie: Option<Cookie>) returns (redirected: bool)
      requires Valid()
      modifies this
      ensures Valid() && users == old(users) && cleaned == old(cleaned)
      ensures redirected <==> cookie.None?
      ensures sessions == if cookie.None? then old(sessions) else old(sessions) - {cookie.value.value}
      ensures cookie.Some? && cookie.value.value !in old(sessions) ==> sessions == old(sessions)
    {
      if cookie.None? {
        return true;
      }
      WellFormedSubmap(sessions, sessions - {cookie.value.value});
      sessions := sessions - {cookie.value.value};
      redirected := false;
    }

    /** deleteSession: it reads the cookie without checking for its absence,
        so a request without one dereferences nil (`panicked`). */
    method DeleteSession(cookie: Option<Cookie>) returns (panicked: bool)
      requires Valid()
      modifies this
      ensures Valid() && users == old(users) && cleaned == old(cleaned)
      ensures panicked <==> cookie.None?
      ensures sessions == if cookie.None? then old(sessions) else old(sessions) - {cookie.value.value}
      ensures cookie.Some? && cookie.value.value !in old(sessions) ==> sessions == old(sessions)
    {
      if cookie.None? {
        return true;
      }
      WellFormedSubmap(sessions, sessions - {cookie.value.value});
      sessions := sessions - {cookie.value.value};
      panicked := false;
    }

    /** extendSession: a live cookie whose token has a user gets its last
        activity moved to `now`; anything else changes nothing. */
    method ExtendSession(cookie: Option<Cookie>, now: int)
      requires Valid()
      modifies this
      ensures Valid() && users == old(users) && cleaned == old(cleaned)
      ensures sessions ==
        if AlreadyLoggedIn(old(sessions), cookie)
        then old(sessions)[cookie.value.value := Session(old(sessions)[cookie.value.value].username, now)]
        else old(sessions)
    {
      if cookie.None? || cookie.value.maxAge < 0 {
        return;
      }
      var username := SessionOf(sessions, cookie.value.value).username;
      if username == "" {
        return;
      }
      WellFormedTouch(sessions, cookie.value.value, now);
      sessions := sessions[cookie.value.value := Session(username, now)];
    }

    /** ActiveSession: a request that is not logged in, or whose session has
        timed out, loses its session; otherwise the session is extended. */
    method ActiveSession(cookie: Option<Cookie>, now: int) returns (state: SessionState)
      requires Valid()
      modifies this
      ensures Valid() && users == old(users) && cleaned == old(cleaned)
      ensures cookie.None? ==> state == Aborted && sessions == old(sessions)
      ensures cookie.Some? && (!AlreadyLoggedIn(old(sessions), cookie) || CheckTimeOut(old(sessions), cookie.value, now)) ==>
        state == Inactive && sessions == old(sessions) - {cookie.value.value}
      ensures cookie.Some? && AlreadyLoggedIn(old(sessions), cookie) && !CheckTimeOut(old(sessions), cookie.value, now) ==>
        && state == Active
        && sessions == old(sessions)[cookie.value.value := Session(old(sessions)[cookie.value.value].username, now)]
      // An extended session is live at `now`.
      ensures state == Active ==> AlreadyLoggedIn(sessions, cookie) && !CheckTimeOut(sessions, cookie.value, now)
    {
      if !AlreadyLoggedIn(sessions, cookie) {
        var panicked := DeleteSession(cookie);
        state := if panicked then Aborted else Inactive;
      } else if CheckTimeOut(sessions, cookie.value, now) {
        var _ := DeleteSession(cookie);
        state := Inactive;
      } else {
        ExtendSession(cookie, now);
        state := Active;
      }
    }

    /** GetUser: the registered user behind the request's cookie, or the
        zero UserInfo. */
    function GetUser(cookie: Option<Cookie>): (u: UserInfo)
      reads this
      ensures cookie.None? ==> u == NoUser
      ensures u != NoUser ==> exists name | name in users :: u == users[name]
      ensures cookie.Some? && cookie.value.value in sessions && sessions[cookie.value.value].username in users ==>
        u == users[sessions[cookie.value.value].username]
    {
      if cookie.None? then NoUser
      else
        var name := SessionOf(sessions, cookie.value.value).username;
        if name in users then users[name] else NoUser
    }

    /** SignupHandler. `validationOk` is the validator's verdict, `hashOk`
        whether bcrypt produced a hash, `insertOk` whether the user database
        took the record. The admin-name test compares the name as typed. */
    method Signup(cookie: Option<Cookie>, isPost: bool, reset: string, signup: string, si: SignupInput,
                  isBuyer: bool, validationOk: bool, hashOk: bool, insertOk: bool)
      returns (out: SignupOutcome)
      requires Valid()
      modifies this
      ensures Valid() && sessions == old(sessions) && cleaned == old(cleaned)
      ensures out.Registered? ==>
        && out.username == ToLowerAscii(si.username)
        && out.username !in old(users)
        && users == old(users)[out.username := UserInfo(out.username, isBuyer)]
      ensures !out.Registered? ==> users == old(users)
      ensures out.Registered? <==>
        && !AlreadyLoggedIn(old(sessions), cookie) && isPost && reset == "" && signup != ""
        && si.username != adminName && validationOk && LoginSanitization(si.username, si.password)
        && ToLowerAscii(si.username) !in old(users) && hashOk && insertOk
      // The stored name is one the login form accepts.
      ensures out.Registered? ==> LoginSanitization(out.username, si.password)
    {
      if AlreadyLoggedIn(sessions, cookie) {
        return AlreadySignedIn;
      }
      if !isPost {
        return SignupForm;
      }
      if reset != "" {
        return SignupReset;
      }
      if signup == "" {
        return SignupForm;
      }
      if si.username == adminName || !validationOk {
        return SignupRejected;
      }
      var sanitized := SignupSanitization(si);
      if !sanitized.1 {
        return SignupRejected;
      }
      var name := sanitized.0.username;
      if name in users {
        return SignupRejected;
      }
      if !hashOk {
        return SignupServerError;
      }
      if !insertOk {
        return DatabaseUnreachable;
      }
      users := users[name := UserInfo(name, isBuyer)];
      out := Registered(name);
    }
  }
}
