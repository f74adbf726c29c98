/**
 * The session controller's five handlers over the refresh-token table:
 * register, login, refresh (rotation), logout and logout-all.
 *
 * Each handler is read as one sequential step. Its effect is given twice:
 * as a function from the old table to a `Step` (the response status and
 * message, and the new table), and as a method of `AuthController`, a
 * class owning the mutable table, whose contract ties it to that function.
 *
 * What the handlers do not decide themselves is passed in: the clock
 * (`now`, milliseconds), the freshly generated refresh-token value
 * (`newToken`), the outcome of `verifyRefreshToken` on the presented token
 * (`signatureOk`) and the answers of the user store (`emailTaken`,
 * `found`, `passwordValid`, `users`).
 */
module Auth {
  import opened RefreshTokens

  datatype Response = Response(status: int, message: string)

  /** What one handler call answers and what it leaves in the table. */
  datatype Step = Step(response: Response, records: seq<Record>)

  /** What the user store answers for a login email. */
  datatype User = User(id: UserId, isActive: bool)

  const MsgUserExists := "User with this email already exists"
  const MsgRegistered := "User registered successfully"
  const MsgRegisterError := "Internal server error during registration"
  const MsgInvalidCredentials := "Invalid credentials"
  const MsgLoggedIn := "Login successful"
  const MsgLoginError := "Internal server error during login"
  const MsgTokenRequired := "Refresh token required"
  const MsgInvalidOrExpired := "Invalid or expired refresh token"
  const MsgInvalidRefresh := "Invalid refresh token"
  const MsgRefreshed := "Token refreshed successfully"
  const MsgLoggedOut := "Logout successful"
  const MsgLoggedOutAll := "Logged out from all devices successfully"

  /**
   * The cookie is truthy. A missing cookie (`undefined`) and the empty
   * string are the falsy values a cookie can take.
   */
  predicate Presented(cookie: Option<Token>): (b: bool)
    ensures b <==> cookie != None && cookie != Some("")
  {
    cookie.Some? && cookie.value != ""
  }

  /** A new session row for `userId`, valid for seven days from `now`. */
  function Issue(rs: seq<Record>, newToken: Token, userId: UserId, ctx: Context, now: int)
    : (r: Option<seq<Record>>)
    ensures r.Some? <==> !HasToken(rs, newToken)
    ensures r.Some? ==>
      r.value == rs + [Record(|rs|, newToken, userId, now + 604800000, false, ctx.userAgent, ctx.ipAddress)]
    ensures r.Some? && WellFormed(rs) ==> WellFormed(r.value)
  {
    Created(rs, newToken, userId, now + RefreshLifetime, ctx)
  }

  function RegisterStep(rs: seq<Record>, emailTaken: bool, newUserId: UserId,
                        newToken: Token, ctx: Context, now: int): (s: Step)
    ensures WellFormed(rs) ==> WellFormed(s.records)
    ensures Extends(rs, s.records)
    ensures |rs| <= |s.records| && s.records[..|rs|] == rs
  {
    if emailTaken then Step(Response(409, MsgUserExists), rs)
    else match Issue(rs, newToken, newUserId, ctx, now)
      case None => Step(Response(500, MsgRegisterError), rs)
      case Some(rs') => Step(Response(201, MsgRegistered), rs')
  }

  function LoginStep(rs: seq<Record>, found: Option<User>, passwordValid: bool,
                     newToken: Token, ctx: Context, now: int): (s: Step)
    ensures WellFormed(rs) ==> WellFormed(s.records)
    ensures Extends(rs, s.records)
    ensures |rs| <= |s.records| && s.records[..|rs|] == rs
  {
    if found.None? || !found.value.isActive then Step(Response(401, MsgInvalidCredentials), rs)
    else if !passwordValid then Step(Response(401, MsgInvalidCredentials), rs)
    else match Issue(rs, newToken, found.value.id, ctx, now)
      case None => Step(Response(500, MsgLoginError), rs)
      case Some(rs') => Step(Response(200, MsgLoggedIn), rs')
  }

  /**
   * Rotation. The old row is revoked before the successor is created and
   * the two writes are not one transaction: when the create fails, the old
   * row stays revoked and the handler answers 401.
   */
  function RefreshStep(rs: seq<Record>, cookie: Option<Token>, users: set<UserId>,
                       signatureOk: bool, newToken: Token, ctx: Context, now: int): (s: Step)
    ensures WellFormed(rs) ==> WellFormed(s.records)
    ensures Extends(rs, s.records)
  {
    if !Presented(cookie) then Step(Response(401, MsgTokenRequired), rs)
    else match ActiveIndex(rs, cookie.value, now)
      case None => Step(Response(401, MsgInvalidOrExpired), rs)
      case Some(k) =>
        if rs[k].userId !in users then Step(Response(401, MsgInvalidOrExpired), rs)
        else if !signatureOk then Step(Response(401, MsgInvalidRefresh), rs)
        else
          var revoked := Updated(rs, ById(rs[k].id));
          UpdatedKeepsTable(rs, ById(rs[k].id));
          match Issue(revoked, newToken, rs[k].userId, ctx, now)
          case None => Step(Response(401, MsgInvalidRefresh), revoked)
          case Some(rs') =>
            ExtendsTransitive(rs, revoked, rs');
            Step(Response(200, MsgRefreshed), rs')
  }

  function LogoutStep(rs: seq<Record>, cookie: Option<Token>): (s: Step)
    ensures WellFormed(rs) ==> WellFormed(s.records)
    ensures Extends(rs, s.records)
  {
    if Presented(cookie) then
      UpdatedKeepsTable(rs, ByToken(cookie.value));
      Step(Response(200, MsgLoggedOut), Updated(rs, ByToken(cookie.value)))
    else Step(Response(200, MsgLoggedOut), rs)
  }

  function LogoutAllStep(rs: seq<Record>, userId: UserId): (s: Step)
    ensures WellFormed(rs) ==> WellFormed(s.records)
    ensures Extends(rs, s.records)
  {
    UpdatedKeepsTable(rs, ByUser(userId));
    Step(Response(200, MsgLoggedOutAll), Updated(rs, ByUser(userId)))
  }

  /** The controller together with the `refresh_tokens` table it writes. */
  class AuthController {
    var records: seq<Record>

    ghost predicate Valid()
      reads this
    {
      WellFormed(records)
    }

    constructor (initial: seq<Record>)
      requires WellFormed(initial)
      ensures Valid() && records == initial
    {
      records := initial;
    }

    /** Whether some row already holds `t` (what the unique index checks). */
    method TokenExists(t: Token) returns (b: bool)
      ensures b == HasToken(records, t)
    {
      var i := 0;
      while i < |records|
        invariant 0 <= i <= |records|
        invariant forall j :: 0 <= j < i ==> records[j].token != t
      {
        if records[i].token == t {
          return true;
        }
        i := i + 1;
      }
      return false;
    }

    /** `findOne` for the row with token `t`, not revoked, expiring after `now`. */
    method FindOne(t: Token, now: int) returns (k: Option<nat>)
      ensures k == ActiveIndex(records, t, now)
    {
      var i := 0;
      while i < |records|
        invariant 0 <= i <= |records|
        invariant forall j :: 0 <= j < i ==> !ActiveFor(records[j], t, now)
      {
        if ActiveFor(records[i], t, now) {
          return Some(i);
        }
        i := i + 1;
      }
      return None;
    }

    /** `create`: appends the new row unless its token is already taken. */
    method Create(token: Token, userId: UserId, expiresAt: int, ctx: Context) returns (ok: bool)
      requires Valid()
      modifies this
      ensures Valid()
      ensures Created(old(records), token, userId, expiresAt, ctx) ==
              if ok then Some(records) else None
      ensures !ok ==> records == old(records)
    {
      var taken := TokenExists(token);
      if taken {
        return false;
      }
      records := records + [NewRecord(|records|, token, userId, expiresAt, ctx)];
      return true;
    }

    /** `update({isRevoked: true}, {where: w})`, one row at a time. */
    method Update(w: Where)
      requires Valid()
      modifies this
      ensures Valid()
      ensures records == Updated(old(records), w)
    {
      ghost var before := records;
      var i := 0;
      while i < |records|
        invariant 0 <= i <= |records| == |before|
        invariant forall j :: 0 <= j < i ==>
          records[j] == if Matches(before[j], w) then before[j].(isRevoked := true) else before[j]
        invariant forall j :: i <= j < |records| ==> records[j] == before[j]
      {
        if Matches(records[i], w) {
          records := records[i := records[i].(isRevoked := true)];
        }
        i := i + 1;
      }
      assert records == Updated(before, w);
      UpdatedKeepsTable(before, w);
    }

    method Register(emailTaken: bool, newUserId: UserId, newToken: Token, ctx: Context, now: int)
      returns (res: Response)
      requires Valid()
      modifies this
      ensures Valid()
      ensures Step(res, records) == RegisterStep(old(records), emailTaken, newUserId, newToken, ctx, now)
    {
      if emailTaken {
        return Response(409, MsgUserExists);
      }
      var ok := Create(newToken, newUserId, now + RefreshLifetime, ctx);
      if !ok {
        return Response(500, MsgRegisterError);
      }
      return Response(201, MsgRegistered);
    }

    method Login(found: Option<User>, passwordValid: bool, newToken: Token, ctx: Context, now: int)
      returns (res: Response)
      requires Valid()
      modifies this
      ensures Valid()
      ensures Step(res, records) == LoginStep(old(records), found, passwordValid, newToken, ctx, now)
    {
      if found.None? || !found.value.isActive {
        return Response(401, MsgInvalidCredentials);
      }
      if !passwordValid {
        return Response(401, MsgInvalidCredentials);
      }
      var ok := Create(newToken, found.value.id, now + RefreshLifetime, ctx);
      if !ok {
        return Response(500, MsgLoginError);
      }
      return Response(200, MsgLoggedIn);
    }

    method Refresh(cookie: Option<Token>, users: set<UserId>, signatureOk: bool,
                   newToken: Token, ctx: Context, now: int) returns (res: Response)
      requires Valid()
      modifies this
      ensures Valid()
      ensures Step(res, records) ==
              RefreshStep(old(records), cookie, users, signatureOk, newToken, ctx, now)
    {
      if !Presented(cookie) {
        return Response(401, MsgTokenRequired);
      }
      var t := cookie.value;
      var k := FindOne(t, now);
      if k.None? {
        return Response(401, MsgInvalidOrExpired);
      }
      var stored := records[k.value];
      if stored.userId !in users {
        return Response(401, MsgInvalidOrExpired);
      }
      if !signatureOk {
        return Response(401, MsgInvalidRefresh);
      }
      Update(ById(stored.id));
      var ok := Create(newToken, stored.userId, now + RefreshLifetime, ctx);
      if !ok {
        return Response(401, MsgInvalidRefresh);
      }
      return Response(200, MsgRefreshed);
    }

    method Logout(cookie: Option<Token>) returns (res: Response)
      requires Valid()
      modifies this
      ensures Valid()
      ensures Step(res, records) == LogoutStep(old(records), cookie)
    {
      if Presented(cookie) {
        Update(ByToken(cookie.value));
      }
      return Response(200, MsgLoggedOut);
    }

    method LogoutAll(userId: UserId) returns (res: Response)
      requires Valid()
      modifies this
      ensures Valid()
      ensures Step(res, records) == LogoutAllStep(old(records), userId)
    {
      Update(ByUser(userId));
      return Response(200, MsgLoggedOutAll);
    }
  }
}
