/** The backend's /register and /login routes: validation of the request
    body, the duplicate-email check, and the login state machine that counts
    failed attempts, locks an account for 15 minutes after the fifth failure,
    and resets the counter on success. The database is a store of User rows
    keyed by their (lower-cased) email and a list of sessions; password
    hashing, password comparison, ids, tokens and the clock are inputs. */
module AuthRoutes {
  import opened Common
  import opened Accounts
  import opened ErrorHandler

  /** Failed attempts after which an account is locked. */
  const LockoutThreshold: int := 5
  /** Lock duration and session lifetime, in milliseconds. */
  const LockoutMillis: int := 15 * 60 * 1000
  const SessionMillis: int := 24 * 60 * 60 * 1000

  // ---------------------------------------------------------------------
  // Requests and outcomes

  /** The string fields of a request body; None is undefined or null. */
  datatype LoginRequest = LoginRequest(email: Option<string>, password: Option<string>)
  datatype RegisterRequest = RegisterRequest(email: Option<string>, username: Option<string>, password: Option<string>,
                                             firstName: Option<string>, lastName: Option<string>)

  /** How /login ends. An error thrown by the session insert goes to the
      error handler. */
  datatype LoginOutcome =
    | MissingCredentials
    | UnknownUser
    | WrongPassword
    | AccountLocked(retryAfter: int)
    | AccountInactive
    | LoggedIn(user: User, session: Session)
    | LoginFailed(err: ApiError)

  /** How /register ends. An error thrown by the insert (a schema validation,
      a duplicate username) goes to the error handler. */
  datatype RegisterOutcome =
    | MissingFields
    | EmailTaken
    | Registered(user: User)
    | RegisterFailed(err: ApiError)

  /** The status and error text of a /login response. */
  function LoginReply(o: LoginOutcome, nodeEnv: Option<string>): (int, string) {
    match o
    case MissingCredentials => (400, "Email and password are required")
    case UnknownUser => (401, "Invalid credentials")
    case WrongPassword => (401, "Invalid credentials")
    case AccountLocked(_) => (423, "Account locked due to too many failed login attempts")
    case AccountInactive => (403, "Account is inactive")
    case LoggedIn(_, _) => (200, "")
    case LoginFailed(err) => (Handle(err, nodeEnv).status, Handle(err, nodeEnv).error)
  }

  /** The status and error text of a /register response. */
  function RegisterReply(o: RegisterOutcome, nodeEnv: Option<string>): (int, string) {
    match o
    case MissingFields => (400, "Email, username, and password are required")
    case EmailTaken => (409, "Email already registered")
    case Registered(_) => (201, "")
    case RegisterFailed(err) => (Handle(err, nodeEnv).status, Handle(err, nodeEnv).error)
  }

  /** An unknown email and a wrong password get the same response. */
  lemma UnknownAndWrongLookAlike(nodeEnv: Option<string>)
    ensures LoginReply(UnknownUser, nodeEnv) == LoginReply(WrongPassword, nodeEnv) == (401, "Invalid credentials")
  {
  }

  // ---------------------------------------------------------------------
  // The login state machine on one row

  /** `user.loginAttempts || 0` */
  function Attempts(u: User): int {
    if u.loginAttempts.Some? then u.loginAttempts.value else 0
  }

  /** `user.lockoutUntil && user.lockoutUntil > new Date()` */
  predicate Locked(u: User, now: int) {
    u.lockoutUntil.Some? && u.lockoutUntil.value > now
  }

  /** The row saved after a wrong password. */
  function AfterWrongPassword(u: User, now: int): User {
    u.(loginAttempts := Some(Attempts(u) + 1),
       lockoutUntil := if Attempts(u) + 1 >= LockoutThreshold then Some(now + LockoutMillis) else u.lockoutUntil)
  }

  /** The row saved after a successful login. */
  function AfterLogin(u: User, now: int, ip: string): User {
    u.(loginAttempts := Some(0), lockoutUntil := None, lastLogin := Some(now), lastLoginIp := Some(ip))
  }

  /** A wrong password counts one more attempt, locks from the fifth attempt
      on, and touches no other column. */
  lemma WrongPasswordCounts(u: User, now: int)
    ensures AfterWrongPassword(u, now).loginAttempts == Some(Attempts(u) + 1)
    ensures Attempts(u) + 1 >= LockoutThreshold ==> AfterWrongPassword(u, now).lockoutUntil == Some(now + LockoutMillis)
    ensures Attempts(u) + 1 < LockoutThreshold ==> AfterWrongPassword(u, now).lockoutUntil == u.lockoutUntil
    ensures AfterWrongPassword(u, now).(loginAttempts := u.loginAttempts, lockoutUntil := u.lockoutUntil) == u
  {
  }

  /** The row after wrong passwords at the given times, in order. */
  function WrongPasswords(u: User, times: seq<int>): User
    decreases |times|
  {
    if times == [] then u else AfterWrongPassword(WrongPasswords(u, times[..|times| - 1]), times[|times| - 1])
  }

  /** Failed attempts accumulate one by one. */
  lemma {:induction false} AttemptsAccumulate(u: User, times: seq<int>)
    ensures Attempts(WrongPasswords(u, times)) == Attempts(u) + |times|
    decreases |times|
  {
    if times != [] {
      AttemptsAccumulate(u, times[..|times| - 1]);
    }
  }

  /** Once the count has reached the threshold, each further failure moves
      the lock to 15 minutes after that failure; below it the lock column is
      untouched. */
  lemma LockFollowsLastFailure(u: User, times: seq<int>)
    requires times != []
    ensures Attempts(u) + |times| >= LockoutThreshold ==>
            WrongPasswords(u, times).lockoutUntil == Some(times[|times| - 1] + LockoutMillis)
    ensures Attempts(u) + |times| < LockoutThreshold ==> WrongPasswords(u, times).lockoutUntil == u.lockoutUntil
  {
    AttemptsAccumulate(u, times[..|times| - 1]);
    if Attempts(u) + |times| < LockoutThreshold {
      LockUntouchedBelowThreshold(u, times);
    }
  }

  lemma {:induction false} LockUntouchedBelowThreshold(u: User, times: seq<int>)
    requires Attempts(u) + |times| < LockoutThreshold
    ensures WrongPasswords(u, times).lockoutUntil == u.lockoutUntil
    decreases |times|
  {
    if times != [] {
      LockUntouchedBelowThreshold(u, times[..|times| - 1]);
      AttemptsAccumulate(u, times[..|times| - 1]);
    }
  }

  /** Five wrong passwords in a row on a row with no failures lock it for the
      15 minutes after the fifth. */
  lemma FiveFailuresLock(u: User, times: seq<int>, now: int)
    requires Attempts(u) == 0 && |times| == 5
    requires now < times[4] + LockoutMillis
    ensures Locked(WrongPasswords(u, times), now)
  {
    LockFollowsLastFailure(u, times);
  }

  /** A lock expires: once its time has passed, the row is not locked. */
  lemma LockExpires(u: User, now: int)
    requires u.lockoutUntil.Some? && u.lockoutUntil.value <= now
    ensures !Locked(u, now)
  {
  }

  /** A successful login clears the counter and the lock, records the time
      and address, and touches no other column. */
  lemma LoginResets(u: User, now: int, ip: string)
    ensures Attempts(AfterLogin(u, now, ip)) == 0 && !Locked(AfterLogin(u, now, ip), now)
    ensures AfterLogin(u, now, ip).(loginAttempts := u.loginAttempts, lockoutUntil := u.lockoutUntil,
                                    lastLogin := u.lastLogin, lastLoginIp := u.lastLoginIp) == u
  {
  }

  // ---------------------------------------------------------------------
  // The routes as functions of the store

  /** What a route returns together with the store it leaves. */
  datatype LoginEffect = LoginEffect(outcome: LoginOutcome, users: map<string, User>, sessions: seq<Session>)
  datatype RegisterEffect = RegisterEffect(outcome: RegisterOutcome, users: map<string, User>)

  /** Reference definition of /login. `passwordMatches(password, hash)` is
      bcrypt's comparison; `ip` and `userAgent` come from the request;
      `sessionToken` is the fresh uuid; `sessionFault` is the error the
      session insert throws, if it does. */
  function LoginSpec(users: map<string, User>, sessions: seq<Session>, req: LoginRequest, now: int,
                     ip: string, userAgent: string, passwordMatches: (string, string) -> bool,
                     sessionToken: string, sessionFault: Option<ApiError>): LoginEffect
  {
    if !Truthy(req.email) || !Truthy(req.password) then LoginEffect(MissingCredentials, users, sessions)
    else
      var key := Lower(req.email.value);
      if key !in users then LoginEffect(UnknownUser, users, sessions)
      else
        var u := users[key];
        if !passwordMatches(req.password.value, u.passwordHash) then
          LoginEffect(WrongPassword, users[key := AfterWrongPassword(u, now)], sessions)
        else if Locked(u, now) then LoginEffect(AccountLocked(u.lockoutUntil.value), users, sessions)
        else if !u.isActive then LoginEffect(AccountInactive, users, sessions)
        else if sessionFault.Some? then
          LoginEffect(LoginFailed(sessionFault.value), users[key := AfterLogin(u, now, ip)], sessions)
        else
          var session := NewSession(u.id, sessionToken, ip, userAgent, now + SessionMillis);
          LoginEffect(LoggedIn(AfterLogin(u, now, ip), session), users[key := AfterLogin(u, now, ip)],
                      sessions + [session])
  }

  /** Reference definition of /register. `hash` is the hashing hook,
      `newId` and `verificationToken` the fresh uuids, `createFault` the
      error the insert throws, if it does. */
  function RegisterSpec(users: map<string, User>, req: RegisterRequest, newId: string, verificationToken: string,
                        hash: string -> string, createFault: Option<ApiError>): RegisterEffect
  {
    if !Truthy(req.email) || !Truthy(req.username) || !Truthy(req.password) then RegisterEffect(MissingFields, users)
    else
      var key := Lower(req.email.value);
      if key in users then RegisterEffect(EmailTaken, users)
      else if createFault.Some? then RegisterEffect(RegisterFailed(createFault.value), users)
      else
        var u := NewUser(newId, key, req.username.value, hash(req.password.value),
                         req.firstName, req.lastName, verificationToken);
        RegisterEffect(Registered(u), users[key := u])
  }

  /** /login answers 400 exactly when the email or password is missing, or
      a correct password on an unlocked, active row reaches the session
      insert and that insert throws an error the handler maps to 400 (a
      Sequelize validation error, such as a missing user agent). */
  lemma LoginBadRequestIs400(users: map<string, User>, sessions: seq<Session>, req: LoginRequest, now: int,
                             ip: string, userAgent: string, passwordMatches: (string, string) -> bool,
                             sessionToken: string, sessionFault: Option<ApiError>, nodeEnv: Option<string>)
    ensures LoginReply(LoginSpec(users, sessions, req, now, ip, userAgent, passwordMatches, sessionToken, sessionFault).outcome,
                       nodeEnv).0 == 400
            <==> || !Truthy(req.email) || !Truthy(req.password)
                 || (&& Lower(req.email.value) in users
                     && passwordMatches(req.password.value, users[Lower(req.email.value)].passwordHash)
                     && !Locked(users[Lower(req.email.value)], now) && users[Lower(req.email.value)].isActive
                     && sessionFault.Some? && Handle(sessionFault.value, nodeEnv).status == 400)
  {
  }

  /** A missing or empty email or password is a 400 before any lookup. */
  lemma LoginNeedsCredentials(users: map<string, User>, sessions: seq<Session>, req: LoginRequest, now: int,
                              ip: string, userAgent: string, passwordMatches: (string, string) -> bool,
                              sessionToken: string, sessionFault: Option<ApiError>)
    ensures LoginSpec(users, sessions, req, now, ip, userAgent, passwordMatches, sessionToken, sessionFault).outcome
              == MissingCredentials
            <==> !Truthy(req.email) || !Truthy(req.password)
    ensures !Truthy(req.email) || !Truthy(req.password) ==>
            LoginSpec(users, sessions, req, now, ip, userAgent, passwordMatches, sessionToken, sessionFault)
              == LoginEffect(MissingCredentials, users, sessions)
  {
  }

  /** A wrong password for a known email is a 401 that saves the row with
      one more attempt (and the lock, from the fifth on), whatever the lock
      and the active flag say. */
  lemma WrongPasswordSaved(users: map<string, User>, sessions: seq<Session>, req: LoginRequest, now: int,
                           ip: string, userAgent: string, passwordMatches: (string, string) -> bool,
                           sessionToken: string, sessionFault: Option<ApiError>)
    requires Truthy(req.email) && Truthy(req.password) && Lower(req.email.value) in users
    requires !passwordMatches(req.password.value, users[Lower(req.email.value)].passwordHash)
    ensures var e := LoginSpec(users, sessions, req, now, ip, userAgent, passwordMatches, sessionToken, sessionFault);
            var u := users[Lower(req.email.value)];
            && e.outcome == WrongPassword && e.sessions == sessions
            && e.users.Keys == users.Keys
            && e.users[Lower(req.email.value)].loginAttempts == Some(Attempts(u) + 1)
            && (Attempts(u) + 1 >= LockoutThreshold ==> e.users[Lower(req.email.value)].lockoutUntil == Some(now + LockoutMillis))
            && (forall k :: k in users && k != Lower(req.email.value) ==> e.users[k] == users[k])
  {
    WrongPasswordCounts(users[Lower(req.email.value)], now);
  }

  /** The lock is consulted only after the password: a correct password on a
      locked row is a 423 carrying the lock time, and nothing is saved. */
  lemma LockedAfterCorrectPassword(users: map<string, User>, sessions: seq<Session>, req: LoginRequest, now: int,
                                   ip: string, userAgent: string, passwordMatches: (string, string) -> bool,
                                   sessionToken: string, sessionFault: Option<ApiError>)
    requires Truthy(req.email) && Truthy(req.password) && Lower(req.email.value) in users
    requires passwordMatches(req.password.value, users[Lower(req.email.value)].passwordHash)
    requires Locked(users[Lower(req.email.value)], now)
    ensures LoginSpec(users, sessions, req, now, ip, userAgent, passwordMatches, sessionToken, sessionFault)
            == LoginEffect(AccountLocked(users[Lower(req.email.value)].lockoutUntil.value), users, sessions)
  {
  }

  /** A 423 only ever answers a correct password. */
  lemma LockedImpliesCorrectPassword(users: map<string, User>, sessions: seq<Session>, req: LoginRequest, now: int,
                                     ip: string, userAgent: string, passwordMatches: (string, string) -> bool,
                                     sessionToken: string, sessionFault: Option<ApiError>)
    requires LoginSpec(users, sessions, req, now, ip, userAgent, passwordMatches, sessionToken, sessionFault).outcome.AccountLocked?
    ensures Truthy(req.email) && Truthy(req.password) && Lower(req.email.value) in users
    ensures passwordMatches(req.password.value, users[Lower(req.email.value)].passwordHash)
    ensures Locked(users[Lower(req.email.value)], now)
  {
  }

  /** A correct password on an unlocked but inactive row is a 403; the
      attempt counter is not reset. */
  lemma InactiveNotReset(users: map<string, User>, sessions: seq<Session>, req: LoginRequest, now: int,
                         ip: string, userAgent: string, passwordMatches: (string, string) -> bool,
                         sessionToken: string, sessionFault: Option<ApiError>)
    requires Truthy(req.email) && Truthy(req.password) && Lower(req.email.value) in users
    requires passwordMatches(req.password.value, users[Lower(req.email.value)].passwordHash)
    requires !Locked(users[Lower(req.email.value)], now) && !users[Lower(req.email.value)].isActive
    ensures LoginSpec(users, sessions, req, now, ip, userAgent, passwordMatches, sessionToken, sessionFault)
            == LoginEffect(AccountInactive, users, sessions)
  {
  }

  /** A correct password on an unlocked, active row resets the counter and
      the lock and opens a session that expires 24 hours later. If the
      session insert throws, the reset has already been saved. */
  lemma SuccessfulLogin(users: map<string, User>, sessions: seq<Session>, req: LoginRequest, now: int,
                        ip: string, userAgent: string, passwordMatches: (string, string) -> bool,
                        sessionToken: string, sessionFault: Option<ApiError>)
    requires Truthy(req.email) && Truthy(req.password) && Lower(req.email.value) in users
    requires passwordMatches(req.password.value, users[Lower(req.email.value)].passwordHash)
    requires !Locked(users[Lower(req.email.value)], now) && users[Lower(req.email.value)].isActive
    ensures var e := LoginSpec(users, sessions, req, now, ip, userAgent, passwordMatches, sessionToken, sessionFault);
            var u := e.users[Lower(req.email.value)];
            && Attempts(u) == 0 && u.lockoutUntil.None? && u.lastLogin == Some(now)
            && (sessionFault.None? ==>
                  && e.outcome.LoggedIn? && e.outcome.user == u
                  && e.sessions == sessions + [e.outcome.session]
                  && e.outcome.session.userId == u.id && e.outcome.session.isActive
                  && e.outcome.session.sessionToken == sessionToken && e.outcome.session.ipAddress == ip
                  && e.outcome.session.userAgent == userAgent
                  && e.outcome.session.expiresAt == now + SessionMillis)
            && (sessionFault.Some? ==> e.outcome == LoginFailed(sessionFault.value) && e.sessions == sessions)
  {
    LoginResets(users[Lower(req.email.value)], now, ip);
  }

  /** Only a successful login opens a session or clears a lock. */
  lemma OnlySuccessOpensSessions(users: map<string, User>, sessions: seq<Session>, req: LoginRequest, now: int,
                                 ip: string, userAgent: string, passwordMatches: (string, string) -> bool,
                                 sessionToken: string, sessionFault: Option<ApiError>)
    ensures var e := LoginSpec(users, sessions, req, now, ip, userAgent, passwordMatches, sessionToken, sessionFault);
            !e.outcome.LoggedIn? ==> e.sessions == sessions
  {
  }

  /** A missing or empty email, username or password is a 400. */
  lemma RegisterNeedsFields(users: map<string, User>, req: RegisterRequest, newId: string, verificationToken: string,
                            hash: string -> string, createFault: Option<ApiError>)
    ensures RegisterSpec(users, req, newId, verificationToken, hash, createFault).outcome == MissingFields
            <==> !Truthy(req.email) || !Truthy(req.username) || !Truthy(req.password)
    ensures RegisterSpec(users, req, newId, verificationToken, hash, createFault).outcome == MissingFields ==>
            RegisterSpec(users, req, newId, verificationToken, hash, createFault).users == users
  {
  }

  /** /register answers 400 exactly when a required field is missing or
      the insert throws an error the handler maps to 400 (a Sequelize
      validation error, such as an email that fails `isEmail`). */
  lemma RegisterBadRequestIs400(users: map<string, User>, req: RegisterRequest, newId: string, verificationToken: string,
                                hash: string -> string, createFault: Option<ApiError>, nodeEnv: Option<string>)
    ensures RegisterReply(RegisterSpec(users, req, newId, verificationToken, hash, createFault).outcome, nodeEnv).0 == 400
            <==> || !Truthy(req.email) || !Truthy(req.username) || !Truthy(req.password)
                 || (&& Lower(req.email.value) !in users
                     && createFault.Some? && Handle(createFault.value, nodeEnv).status == 400)
  {
  }

  /** /register answers 409 exactly when all fields are given and either the
      lower-cased email is already stored or the insert throws an error the
      handler maps to 409 (a unique-constraint violation, say). */
  lemma RegisterConflictIs409(users: map<string, User>, req: RegisterRequest, newId: string, verificationToken: string,
                              hash: string -> string, createFault: Option<ApiError>, nodeEnv: Option<string>)
    ensures RegisterReply(RegisterSpec(users, req, newId, verificationToken, hash, createFault).outcome, nodeEnv).0 == 409
            <==> && Truthy(req.email) && Truthy(req.username) && Truthy(req.password)
                 && (|| Lower(req.email.value) in users
                     || (createFault.Some? && Handle(createFault.value, nodeEnv).status == 409))
  {
  }

  /** An email already stored in any letter case is a 409. */
  lemma DuplicateEmailRejected(users: map<string, User>, req: RegisterRequest, newId: string, verificationToken: string,
                               hash: string -> string, createFault: Option<ApiError>)
    requires Truthy(req.email) && Truthy(req.username) && Truthy(req.password)
    ensures RegisterSpec(users, req, newId, verificationToken, hash, createFault).outcome == EmailTaken
            <==> Lower(req.email.value) in users
    ensures Lower(req.email.value) in users ==> RegisterSpec(users, req, newId, verificationToken, hash, createFault).users == users
  {
  }

  /** A registered email is stored lower-cased with the schema defaults, and a
      later login with the same email in any ASCII letter case finds it. */
  lemma RegisteredUserFound(users: map<string, User>, req: RegisterRequest, newId: string, verificationToken: string,
                            hash: string -> string, sessions: seq<Session>, login: LoginRequest, now: int,
                            ip: string, userAgent: string, passwordMatches: (string, string) -> bool,
                            sessionToken: string, sessionFault: Option<ApiError>)
    requires RegisterSpec(users, req, newId, verificationToken, hash, None).outcome.Registered?
    requires Truthy(login.email) && Truthy(login.password) && Lower(login.email.value) == Lower(req.email.value)
    ensures var r := RegisterSpec(users, req, newId, verificationToken, hash, None);
            && r.outcome.user.email == Lower(req.email.value) && Lower(r.outcome.user.email) == r.outcome.user.email
            && r.users[Lower(req.email.value)] == r.outcome.user && r.outcome.user.id == newId
            && r.outcome.user.username == req.username.value && r.outcome.user.passwordHash == hash(req.password.value)
            && r.outcome.user.role == UserRole && r.outcome.user.isActive && Attempts(r.outcome.user) == 0
            && !r.outcome.user.isEmailVerified && r.outcome.user.lockoutUntil.None?
            && r.outcome.user.emailVerificationToken == Some(verificationToken)
            && LoginSpec(r.users, sessions, login, now, ip, userAgent, passwordMatches, sessionToken, sessionFault).outcome
               != UnknownUser
  {
    LowerIdempotent(req.email.value);
  }

  // ---------------------------------------------------------------------

  /** The User and UserSession tables. */
  class AccountStore {
    var users: map<string, User>
    var sessions: seq<Session>

    /** Rows are keyed by their email, which is stored lower-cased. */
    ghost predicate Valid()
      reads this`users
    {
      forall k :: k in users ==> users[k].email == k && Lower(k) == k
    }

    constructor ()
      ensures Valid() && users == map[] && sessions == []
    {
      users := map[];
      sessions := [];
    }

    /** POST /login. */
    method Login(req: LoginRequest, now: int, ip: string, userAgent: string,
                 passwordMatches: (string, string) -> bool, sessionToken: string, sessionFault: Option<ApiError>)
      returns (outcome: LoginOutcome)
      requires Valid()
      modifies this`users, this`sessions
      ensures Valid()
      ensures LoginEffect(outcome, users, sessions)
              == LoginSpec(old(users), old(sessions), req, now, ip, userAgent, passwordMatches, sessionToken, sessionFault)
    {
      if !Truthy(req.email) || !Truthy(req.password) {
        return MissingCredentials;
      }
      var key := Lower(req.email.value);
      if key !in users {
        return UnknownUser;
      }
      var user := users[key];
      if !passwordMatches(req.password.value, user.passwordHash) {
        user := user.(loginAttempts := Some(Attempts(user) + 1));
        if user.loginAttempts.value >= LockoutThreshold {
          user := user.(lockoutUntil := Some(now + LockoutMillis));
        }
        users := users[key := user];
        return WrongPassword;
      }
      if user.lockoutUntil.Some? && user.lockoutUntil.value > now {
        return AccountLocked(user.lockoutUntil.value);
      }
      if !user.isActive {
        return AccountInactive;
      }
      user := user.(loginAttempts := Some(0));
      user := user.(lockoutUntil := None);
      user := user.(lastLogin := Some(now));
      user := user.(lastLoginIp := Some(ip));
      users := users[key := user];
      if sessionFault.Some? {
        return LoginFailed(sessionFault.value);
      }
      var session := NewSession(user.id, sessionToken, ip, userAgent, now + SessionMillis);
      sessions := sessions + [session];
      outcome := LoggedIn(user, session);
    }

    /** POST /register. */
    method Register(req: RegisterRequest, newId: string, verificationToken: string,
                    hash: string -> string, createFault: Option<ApiError>) returns (outcome: RegisterOutcome)
      requires Valid()
      modifies this`users
      ensures Valid()
      ensures RegisterEffect(outcome, users) == RegisterSpec(old(users), req, newId, verificationToken, hash, createFault)
    {
      if !Truthy(req.email) || !Truthy(req.username) || !Truthy(req.password) {
        return MissingFields;
      }
      var email := Lower(req.email.value);
      if email in users {
        return EmailTaken;
      }
      if createFault.Some? {
        return RegisterFailed(createFault.value);
      }
      var user := NewUser(newId, email, req.username.value, hash(req.password.value),
                          req.firstName, req.lastName, verificationToken);
      LowerIdempotent(req.email.value);
      users := users[email := user];
      outcome := Registered(user);
    }
  }
}
