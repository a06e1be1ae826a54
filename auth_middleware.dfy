/** The backend's authentication middleware: `authenticate` takes the token
    from the Authorization header, verifies it and loads the user into the
    request; `authorize`, `isAdmin` and `isSuperAdmin` are role guards on the
    loaded user. JWT verification and the user lookup are inputs. */
module AuthMiddleware {
  import opened Common
  import opened Accounts

  // ---------------------------------------------------------------------
  // JavaScript `s.split(c)` for a one-character separator.

  function Split(s: string, c: char): (parts: seq<string>)
    ensures |parts| >= 1
    decreases |s|
  {
    if |s| == 0 then [""]
    else if s[0] == c then [""] + Split(s[1..], c)
    else [[s[0]] + Split(s[1..], c)[0]] + Split(s[1..], c)[1..]
  }

  /** JavaScript `parts.join(c)`. */
  function Join(parts: seq<string>, c: char): string
    requires |parts| >= 1
    decreases |parts|
  {
    if |parts| == 1 then parts[0] else parts[0] + [c] + Join(parts[1..], c)
  }

  /** Joining the pieces with the separator gives the string back. */
  lemma {:induction false} JoinSplit(s: string, c: char)
    ensures Join(Split(s, c), c) == s
    decreases |s|
  {
    if |s| > 0 {
      JoinSplit(s[1..], c);
      var rest := Split(s[1..], c);
      if s[0] == c {
        assert Split(s, c) == [""] + rest;
        assert ([""] + rest)[1..] == rest;
      } else {
        var parts := Split(s, c);
        assert parts == [[s[0]] + rest[0]] + rest[1..];
        if |rest| == 1 {
          assert Join(parts, c) == [s[0]] + rest[0];
        } else {
          assert parts[1..] == rest[1..];
          assert Join(rest, c) == rest[0] + [c] + Join(rest[1..], c);
        }
        assert s == [s[0]] + s[1..];
      }
    }
  }

  /** No piece contains the separator. */
  lemma {:induction false} SplitPiecesClean(s: string, c: char)
    ensures forall i :: 0 <= i < |Split(s, c)| ==> c !in Split(s, c)[i]
    decreases |s|
  {
    if |s| > 0 {
      SplitPiecesClean(s[1..], c);
      var rest := Split(s[1..], c);
      if s[0] != c {
        assert c !in [s[0]] + rest[0];
        var parts := Split(s, c);
        forall i | 1 <= i < |parts|
          ensures c !in parts[i]
        {
          assert parts[i] == rest[i];
        }
      } else {
        var parts := Split(s, c);
        forall i | 1 <= i < |parts|
          ensures c !in parts[i]
        {
          assert parts[i] == rest[i - 1];
        }
      }
    }
  }

  /** A string without the separator is one piece. */
  lemma {:induction false} SplitWithoutSeparator(s: string, c: char)
    requires c !in s
    ensures Split(s, c) == [s]
    decreases |s|
  {
    if |s| > 0 {
      SplitWithoutSeparator(s[1..], c);
      assert [s[0]] + s[1..] == s;
    }
  }

  /** One step of Split on a string with a known first character. */
  lemma SplitCons(x: char, t: string, c: char)
    ensures Split([x] + t, c) == if x == c then [""] + Split(t, c) else [[x] + Split(t, c)[0]] + Split(t, c)[1..]
  {
    assert ([x] + t)[0] == x && ([x] + t)[1..] == t;
  }

  /** The inductive step of SplitConcat: one more leading character. */
  lemma SplitConcatStep(x: char, a: string, b: string, c: char)
    requires Split(a + [c] + b, c) == Split(a, c) + Split(b, c)
    ensures Split([x] + a + [c] + b, c) == Split([x] + a, c) + Split(b, c)
  {
    assert [x] + a + [c] + b == [x] + (a + [c] + b);
    SplitCons(x, a + [c] + b, c);
    SplitCons(x, a, c);
    if x == c {
      SeparatorStep(Split(a, c), Split(b, c));
    } else {
      LetterStep([x], Split(a, c), Split(b, c));
    }
  }

  lemma SeparatorStep(left: seq<string>, right: seq<string>)
    ensures ([""] + left) + right == [""] + (left + right)
  {
  }

  lemma LetterStep(x: string, left: seq<string>, right: seq<string>)
    requires |left| >= 1
    ensures [x + (left + right)[0]] + (left + right)[1..] == ([x + left[0]] + left[1..]) + right
  {
    assert (left + right)[0] == left[0];
    assert (left + right)[1..] == left[1..] + right;
  }

  /** Splitting at one occurrence of the separator concatenates the pieces. */
  lemma {:induction false} SplitConcat(a: string, b: string, c: char)
    ensures Split(a + [c] + b, c) == Split(a, c) + Split(b, c)
    decreases |a|
  {
    if |a| == 0 {
      assert a + [c] + b == [c] + b;
      SplitCons(c, b, c);
    } else {
      SplitConcat(a[1..], b, c);
      SplitConcatStep(a[0], a[1..], b, c);
      assert [a[0]] + a[1..] == a;
    }
  }

  // ---------------------------------------------------------------------
  // authenticate

  /** `req.headers.authorization?.split(' ')[1]`; None is undefined. */
  function BearerToken(authorization: Option<string>): Option<string> {
    if authorization.None? || |Split(authorization.value, ' ')| < 2 then None
    else Some(Split(authorization.value, ' ')[1])
  }

  /** The token is the word after the first space; the word before it (the
      scheme) is not checked. */
  lemma TokenIsSecondWord(scheme: string, token: string)
    requires ' ' !in scheme && ' ' !in token
    ensures BearerToken(Some(scheme + " " + token)) == Some(token)
  {
    SplitConcat(scheme, token, ' ');
    SplitWithoutSeparator(scheme, ' ');
    SplitWithoutSeparator(token, ' ');
  }

  /** A header of one word has no token. */
  lemma OneWordHasNoToken(header: string)
    requires ' ' !in header
    ensures BearerToken(Some(header)) == None
  {
    SplitWithoutSeparator(header, ' ');
  }

  /** The outcome of `db.User.findByPk`: a row, null, or a thrown error. */
  datatype Lookup = Found(user: User) | NotFound | LookupFault

  datatype AuthFailure = NoToken | UserNotFoundOrInactive | InvalidToken

  datatype AuthResult = Accepted(user: User) | Rejected(failure: AuthFailure)

  /** Every rejection is a 401; the messages tell them apart. */
  function FailureReply(f: AuthFailure): (int, string) {
    match f
    case NoToken => (401, "No token provided")
    case UserNotFoundOrInactive => (401, "User not found or inactive")
    case InvalidToken => (401, "Invalid token")
  }

  /** Reference definition of `authenticate`. `verify` is `jwt.verify`
      giving the token's user id, None when it throws; a thrown lookup is
      reported like a bad token. */
  function AuthenticateSpec(authorization: Option<string>, verify: string -> Option<string>,
                            findById: string -> Lookup): AuthResult
  {
    var token := BearerToken(authorization);
    if !Truthy(token) then Rejected(NoToken)
    else if verify(token.value).None? then Rejected(InvalidToken)
    else
      var found := findById(verify(token.value).value);
      if found.LookupFault? then Rejected(InvalidToken)
      else if found.NotFound? || !found.user.isActive then Rejected(UserNotFoundOrInactive)
      else Accepted(found.user)
  }

  /** Accepted users are active and are the ones the token names. */
  lemma AcceptedUserIsActive(authorization: Option<string>, verify: string -> Option<string>, findById: string -> Lookup)
    requires AuthenticateSpec(authorization, verify, findById).Accepted?
    ensures var u := AuthenticateSpec(authorization, verify, findById).user;
            && u.isActive && BearerToken(authorization).Some?
            && verify(BearerToken(authorization).value).Some?
            && findById(verify(BearerToken(authorization).value).value) == Found(u)
  {
  }

  /** Without a non-empty second word in the header the request is rejected
      before any verification. */
  lemma NoTokenRejected(authorization: Option<string>, verify: string -> Option<string>, findById: string -> Lookup)
    ensures AuthenticateSpec(authorization, verify, findById) == Rejected(NoToken) <==> !Truthy(BearerToken(authorization))
  {
  }

  /** The request seen by the middleware: its Authorization header and the
      user `authenticate` attaches. */
  class Request {
    const authorization: Option<string>
    var user: Option<User>

    constructor (authorization: Option<string>)
      ensures this.authorization == authorization && user.None?
    {
      this.authorization := authorization;
      user := None;
    }
  }

  /** `authenticate`: on success the user is attached to the request and the
      next handler runs; otherwise the request is answered with a 401. */
  method Authenticate(req: Request, verify: string -> Option<string>, findById: string -> Lookup)
    returns (result: AuthResult)
    modifies req`user
    ensures result == AuthenticateSpec(req.authorization, verify, findById)
    ensures result.Accepted? ==> req.user == Some(result.user)
    ensures result.Rejected? ==> req.user == old(req.user)
  {
    var token := BearerToken(req.authorization);
    if !Truthy(token) {
      return Rejected(NoToken);
    }
    var decoded := verify(token.value);
    if decoded.None? {
      return Rejected(InvalidToken);
    }
    var found := findById(decoded.value);
    if found.LookupFault? {
      return Rejected(InvalidToken);
    }
    if found.NotFound? || !found.user.isActive {
      return Rejected(UserNotFoundOrInactive);
    }
    req.user := Some(found.user);
    result := Accepted(found.user);
  }

  // ---------------------------------------------------------------------
  // Role guards on `req.user`

  datatype Guard = Pass | Deny(status: int, error: string)

  /** `authorize(roles)` */
  function Authorize(roles: seq<string>, user: Option<User>): Guard {
    if user.None? then Deny(401, "Not authenticated")
    else if |roles| > 0 && user.value.role !in roles then Deny(403, "Insufficient permissions")
    else Pass
  }

  /** `isAdmin` */
  function IsAdmin(user: Option<User>): Guard {
    if user.None? || user.value.role !in [AdminRole, SuperAdminRole] then Deny(403, "Admin access required")
    else Pass
  }

  /** `isSuperAdmin` */
  function IsSuperAdmin(user: Option<User>): Guard {
    if user.None? || user.value.role != SuperAdminRole then Deny(403, "Super admin access required")
    else Pass
  }

  /** `authorize` passes a loaded user whose role is listed, or any loaded
      user when the list is empty; a missing user is a 401, an unlisted role
      a 403. */
  lemma AuthorizeIff(roles: seq<string>, user: Option<User>)
    ensures Authorize(roles, user) == Pass <==> user.Some? && (roles == [] || user.value.role in roles)
    ensures user.None? ==> Authorize(roles, user).status == 401
    ensures user.Some? && roles != [] && user.value.role !in roles ==> Authorize(roles, user).status == 403
  {
  }

  /** `isAdmin` passes exactly the admin and superadmin roles. */
  lemma IsAdminIff(user: Option<User>)
    ensures IsAdmin(user) == Pass <==> user.Some? && (user.value.role == AdminRole || user.value.role == SuperAdminRole)
  {
  }

  /** `isSuperAdmin` passes exactly the superadmin role, so it is stricter
      than `isAdmin`. */
  lemma SuperAdminIsAdmin(user: Option<User>)
    ensures IsSuperAdmin(user) == Pass <==> user.Some? && user.value.role == SuperAdminRole
    ensures IsSuperAdmin(user) == Pass ==> IsAdmin(user) == Pass
  {
  }

  /** `isAdmin` admits what `authorize(['admin', 'superadmin'])` admits, but
      answers a missing user with 403 where `authorize` answers 401. */
  lemma IsAdminAgreesWithAuthorize(user: Option<User>)
    ensures IsAdmin(user).Pass? <==> Authorize([AdminRole, SuperAdminRole], user).Pass?
    ensures user.None? ==> IsAdmin(user).status == 403 && Authorize([AdminRole, SuperAdminRole], user).status == 401
  {
  }

  /** After a successful `authenticate`, `authorize` never answers 401. */
  lemma AuthenticatedNeverUnauthenticated(authorization: Option<string>, verify: string -> Option<string>,
                                          findById: string -> Lookup, roles: seq<string>)
    requires AuthenticateSpec(authorization, verify, findById).Accepted?
    ensures Authorize(roles, Some(AuthenticateSpec(authorization, verify, findById).user)) != Deny(401, "Not authenticated")
  {
  }
}
