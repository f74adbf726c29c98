/**
 * Properties of the refresh-token lifecycle driven by the five handlers:
 * what each handler answers and writes, and what holds after any sequence
 * of later requests (single-use rotation, revocation never undone,
 * owner-wide revocation, the unique index kept for the table's lifetime).
 */
module AuthProperties {
  import opened RefreshTokens
  import opened Auth

  /** One handler call with the inputs it does not decide itself. */
  datatype Request =
    | RegisterRequest(emailTaken: bool, newUserId: UserId, newToken: Token, ctx: Context, now: int)
    | LoginRequest(found: Option<User>, passwordValid: bool, newToken: Token, ctx: Context, now: int)
    | RefreshRequest(cookie: Option<Token>, users: set<UserId>, signatureOk: bool,
                     newToken: Token, ctx: Context, now: int)
    | LogoutRequest(cookie: Option<Token>)
    | LogoutAllRequest(userId: UserId)

  function Apply(rs: seq<Record>, req: Request): Step {
    match req
    case RegisterRequest(emailTaken, newUserId, newToken, ctx, now) =>
      RegisterStep(rs, emailTaken, newUserId, newToken, ctx, now)
    case LoginRequest(found, passwordValid, newToken, ctx, now) =>
      LoginStep(rs, found, passwordValid, newToken, ctx, now)
    case RefreshRequest(cookie, users, signatureOk, newToken, ctx, now) =>
      RefreshStep(rs, cookie, users, signatureOk, newToken, ctx, now)
    case LogoutRequest(cookie) => LogoutStep(rs, cookie)
    case LogoutAllRequest(userId) => LogoutAllStep(rs, userId)
  }

  /** The table after the requests `reqs`, handled one after the other. */
  function Run(rs: seq<Record>, reqs: seq<Request>): seq<Record>
    decreases |reqs|
  {
    if reqs == [] then rs else Run(Apply(rs, reqs[0]).records, reqs[1..])
  }

  /**
   * `b` is `a` with exactly one row appended: an active row for `userId`
   * holding `token`, expiring seven days (604800000 ms) after `now`.
   */
  ghost predicate IssuedOne(a: seq<Record>, b: seq<Record>, userId: UserId, token: Token,
                            ctx: Context, now: int)
  {
    b == a + [Record(|a|, token, userId, now + 604800000, false, ctx.userAgent, ctx.ipAddress)]
  }

  /** The refresh handler gets past its three checks (cookie, lookup and owner, signature). */
  ghost predicate RefreshAccepted(rs: seq<Record>, cookie: Option<Token>, users: set<UserId>,
                                  signatureOk: bool, now: int)
  {
    Presented(cookie) &&
    ActiveIndex(rs, cookie.value, now).Some? &&
    rs[ActiveIndex(rs, cookie.value, now).value].userId in users &&
    signatureOk
  }

  /** Two tables that differ at most in the `userAgent` and `ipAddress` metadata. */
  ghost predicate SameButMetadata(a: seq<Record>, b: seq<Record>) {
    |a| == |b| &&
    forall i :: 0 <= i < |a| ==>
      a[i].id == b[i].id && a[i].token == b[i].token && a[i].userId == b[i].userId &&
      a[i].expiresAt == b[i].expiresAt && a[i].isRevoked == b[i].isRevoked
  }

  // ---------------------------------------------------------------------
  // One handler call

  lemma RegisterOutcome(rs: seq<Record>, emailTaken: bool, newUserId: UserId,
                        newToken: Token, ctx: Context, now: int)
    ensures var s := RegisterStep(rs, emailTaken, newUserId, newToken, ctx, now);
      (emailTaken ==> s == Step(Response(409, MsgUserExists), rs)) &&
      (s.response.status == 201 <==> !emailTaken && !HasToken(rs, newToken)) &&
      (s.response.status == 201 ==> IssuedOne(rs, s.records, newUserId, newToken, ctx, now)) &&
      (s.response.status != 201 ==> s.records == rs)
  {
  }

  /** The three credential failures give one and the same answer and write nothing. */
  lemma LoginOutcome(rs: seq<Record>, found: Option<User>, passwordValid: bool,
                     newToken: Token, ctx: Context, now: int)
    ensures var s := LoginStep(rs, found, passwordValid, newToken, ctx, now);
      (found.None? || !found.value.isActive || !passwordValid ==>
         s == Step(Response(401, MsgInvalidCredentials), rs)) &&
      (s.response.status == 200 <==>
         found.Some? && found.value.isActive && passwordValid && !HasToken(rs, newToken)) &&
      (s.response.status == 200 ==> IssuedOne(rs, s.records, found.value.id, newToken, ctx, now)) &&
      (s.response.status != 200 ==> s.records == rs)
  {
  }

  /**
   * A refresh that fails one of its checks answers 401 and writes nothing;
   * it succeeds exactly when all checks pass and the new token is free; when
   * only the create fails, the presented row is left revoked with no successor.
   */
  lemma RefreshOutcome(rs: seq<Record>, cookie: Option<Token>, users: set<UserId>,
                       signatureOk: bool, newToken: Token, ctx: Context, now: int)
    requires WellFormed(rs)
    ensures var s := RefreshStep(rs, cookie, users, signatureOk, newToken, ctx, now);
      (s.response.status == 200 || s.response.status == 401) &&
      (!RefreshAccepted(rs, cookie, users, signatureOk, now) ==>
         s.response.status == 401 && s.records == rs) &&
      (s.response.status == 200 <==>
         RefreshAccepted(rs, cookie, users, signatureOk, now) && !HasToken(rs, newToken)) &&
      (RefreshAccepted(rs, cookie, users, signatureOk, now) && HasToken(rs, newToken) ==>
         s == Step(Response(401, MsgInvalidRefresh),
                   Updated(rs, ById(ActiveIndex(rs, cookie.value, now).value))))
  {
    if RefreshAccepted(rs, cookie, users, signatureOk, now) {
      var k := ActiveIndex(rs, cookie.value, now).value;
      UpdatedKeepsTable(rs, ById(k));
      assert HasToken(Updated(rs, ById(k)), newToken) == HasToken(rs, newToken);
    }
  }

  /**
   * Rotation of the row holding `t`: it succeeds exactly when that row is
   * active, its owner exists, the signature checks and the new token is
   * free; then the row is revoked, one row for the same owner is appended,
   * and every other row is unchanged.
   */
  lemma RefreshRotates(rs: seq<Record>, t: Token, users: set<UserId>, signatureOk: bool,
                       newToken: Token, ctx: Context, now: int, k: nat)
    requires WellFormed(rs) && k < |rs| && rs[k].token == t
    ensures var s := RefreshStep(rs, Some(t), users, signatureOk, newToken, ctx, now);
      (s.response.status == 200 <==>
         t != "" && ActiveFor(rs[k], t, now) && rs[k].userId in users && signatureOk &&
         !HasToken(rs, newToken)) &&
      (s.response.status == 200 ==>
         |s.records| == |rs| + 1 &&
         s.records[k] == rs[k].(isRevoked := true) &&
         (forall j :: 0 <= j < |rs| && j != k ==> s.records[j] == rs[j]) &&
         s.records[|rs|] ==
           Record(|rs|, newToken, rs[k].userId, now + 604800000, false, ctx.userAgent, ctx.ipAddress))
  {
    if ActiveFor(rs[k], t, now) {
      ActiveIndexUnique(rs, t, now, k);
      UpdatedKeepsTable(rs, ById(k));
      assert HasToken(Updated(rs, ById(k)), newToken) == HasToken(rs, newToken);
    } else {
      DeadTokenNotFound(rs, t, now, k);
    }
  }

  /** Strict expiry, and no reuse of revoked rows: such a row is never accepted. */
  lemma DeadRowRejected(rs: seq<Record>, k: nat, users: set<UserId>, signatureOk: bool,
                        newToken: Token, ctx: Context, now: int)
    requires WellFormed(rs) && k < |rs| && rs[k].token != ""
    requires rs[k].isRevoked || rs[k].expiresAt <= now
    ensures RefreshStep(rs, Some(rs[k].token), users, signatureOk, newToken, ctx, now) ==
            Step(Response(401, MsgInvalidOrExpired), rs)
  {
    DeadTokenNotFound(rs, rs[k].token, now, k);
  }

  /**
   * Logout always succeeds with the same answer; it revokes exactly the
   * rows holding the presented token, and writes nothing when the cookie is
   * missing or the token unknown.
   */
  lemma LogoutOutcome(rs: seq<Record>, cookie: Option<Token>)
    ensures var s := LogoutStep(rs, cookie);
      s.response == Response(200, MsgLoggedOut) &&
      |s.records| == |rs| &&
      (forall i :: 0 <= i < |rs| ==>
         s.records[i] == if Presented(cookie) && rs[i].token == cookie.value
                         then rs[i].(isRevoked := true) else rs[i]) &&
      (!Presented(cookie) || !HasToken(rs, cookie.value) ==> s.records == rs)
  {
    if Presented(cookie) && !HasToken(rs, cookie.value) {
      UpdatedNoMatch(rs, ByToken(cookie.value));
    }
  }

  /** Logout-all revokes every row of the user and touches no other row. */
  lemma LogoutAllOutcome(rs: seq<Record>, u: UserId)
    ensures var s := LogoutAllStep(rs, u);
      s.response == Response(200, MsgLoggedOutAll) &&
      |s.records| == |rs| &&
      (forall i :: 0 <= i < |rs| && rs[i].userId == u ==> s.records[i] == rs[i].(isRevoked := true)) &&
      (forall i :: 0 <= i < |rs| && rs[i].userId != u ==> s.records[i] == rs[i])
  {
  }

  /** The answers never depend on the stored or the presented metadata. */
  lemma MetadataNotConsulted(rs: seq<Record>, other: seq<Record>, ctx: Context, otherCtx: Context,
                             cookie: Option<Token>, users: set<UserId>, signatureOk: bool,
                             found: Option<User>, passwordValid: bool, emailTaken: bool,
                             newUserId: UserId, newToken: Token, now: int)
    requires SameButMetadata(rs, other)
    ensures RefreshStep(rs, cookie, users, signatureOk, newToken, ctx, now).response ==
            RefreshStep(other, cookie, users, signatureOk, newToken, otherCtx, now).response
    ensures LoginStep(rs, found, passwordValid, newToken, ctx, now).response ==
            LoginStep(other, found, passwordValid, newToken, otherCtx, now).response
    ensures RegisterStep(rs, emailTaken, newUserId, newToken, ctx, now).response ==
            RegisterStep(other, emailTaken, newUserId, newToken, otherCtx, now).response
  {
    assert HasToken(rs, newToken) == HasToken(other, newToken) by {
      SameTokensHasToken(rs, other, newToken);
    }
    if Presented(cookie) {
      var t := cookie.value;
      ActiveIndexIgnoresMetadata(rs, other, t, now);
      match ActiveIndex(rs, t, now)
      case None =>
      case Some(k) =>
        var id := rs[k].id;
        var a, b := Updated(rs, ById(id)), Updated(other, ById(id));
        assert forall i :: 0 <= i < |a| ==> a[i].token == b[i].token;
        SameTokensHasToken(a, b, newToken);
    }
  }

  lemma SameTokensHasToken(a: seq<Record>, b: seq<Record>, t: Token)
    requires |a| == |b| && forall i :: 0 <= i < |a| ==> a[i].token == b[i].token
    ensures HasToken(a, t) == HasToken(b, t)
  {
    if HasToken(a, t) {
      var i :| 0 <= i < |a| && a[i].token == t;
      assert b[i].token == t;
    }
    if HasToken(b, t) {
      var i :| 0 <= i < |b| && b[i].token == t;
      assert a[i].token == t;
    }
  }

  lemma {:induction false} ActiveIndexIgnoresMetadata(a: seq<Record>, b: seq<Record>, t: Token, now: int)
    requires SameButMetadata(a, b)
    ensures ActiveIndex(a, t, now) == ActiveIndex(b, t, now)
  {
    if a != [] {
      assert ActiveFor(a[0], t, now) == ActiveFor(b[0], t, now);
      ActiveIndexIgnoresMetadata(a[1..], b[1..], t, now);
    }
  }

  // ---------------------------------------------------------------------
  // Any sequence of requests

  /**
   * Across every handler the unique index and the primary keys hold, no
   * row is deleted, and a row only ever changes by being revoked: owner,
   * token and expiry are fixed and `isRevoked` never goes back to false.
   */
  lemma {:induction false} RunKeepsTable(rs: seq<Record>, reqs: seq<Request>)
    requires WellFormed(rs)
    ensures WellFormed(Run(rs, reqs)) && Extends(rs, Run(rs, reqs))
    decreases |reqs|
  {
    if reqs != [] {
      var next := Apply(rs, reqs[0]).records;
      RunKeepsTable(next, reqs[1..]);
      ExtendsTransitive(rs, next, Run(next, reqs[1..]));
    }
  }

  /** Revocation is never undone, whatever requests follow. */
  lemma RevocationPermanent(rs: seq<Record>, reqs: seq<Request>, k: nat)
    requires WellFormed(rs) && k < |rs| && rs[k].isRevoked
    ensures k < |Run(rs, reqs)| && Run(rs, reqs)[k] == rs[k]
  {
    RunKeepsTable(rs, reqs);
  }

  /** A revoked row's token is refused by every later refresh. */
  lemma RevokedTokenRefusedForever(rs: seq<Record>, reqs: seq<Request>, k: nat,
                                   users: set<UserId>, signatureOk: bool,
                                   newToken: Token, ctx: Context, now: int)
    requires WellFormed(rs) && k < |rs| && rs[k].isRevoked
    ensures RefreshStep(Run(rs, reqs), Some(rs[k].token), users, signatureOk, newToken, ctx, now)
              .response.status == 401
  {
    var b := Run(rs, reqs);
    RunKeepsTable(rs, reqs);
    assert b[k].token == rs[k].token && b[k].isRevoked;
    DeadTokenNotFound(b, rs[k].token, now, k);
  }

  /**
   * Single use: after a successful refresh with `t`, a refresh with `t`
   * fails, however many requests were handled in between.
   */
  lemma SingleUse(rs: seq<Record>, t: Token, users: set<UserId>, signatureOk: bool,
                  newToken: Token, ctx: Context, now: int, reqs: seq<Request>,
                  laterUsers: set<UserId>, laterSignatureOk: bool, laterToken: Token,
                  laterCtx: Context, laterNow: int)
    requires WellFormed(rs)
    requires RefreshStep(rs, Some(t), users, signatureOk, newToken, ctx, now).response.status == 200
    ensures var after := Run(RefreshStep(rs, Some(t), users, signatureOk, newToken, ctx, now).records, reqs);
      RefreshStep(after, Some(t), laterUsers, laterSignatureOk, laterToken, laterCtx, laterNow).response.status == 401
  {
    var s := RefreshStep(rs, Some(t), users, signatureOk, newToken, ctx, now);
    var k := ActiveIndex(rs, t, now).value;
    RefreshRotates(rs, t, users, signatureOk, newToken, ctx, now, k);
    RevokedTokenRefusedForever(s.records, reqs, k, laterUsers, laterSignatureOk, laterToken, laterCtx, laterNow);
  }

  /** After logout with a token of the table, that token is refused from then on. */
  lemma LogoutEndsSession(rs: seq<Record>, t: Token, reqs: seq<Request>, users: set<UserId>,
                          signatureOk: bool, newToken: Token, ctx: Context, now: int)
    requires WellFormed(rs) && HasToken(rs, t)
    ensures var after := Run(LogoutStep(rs, Some(t)).records, reqs);
      RefreshStep(after, Some(t), users, signatureOk, newToken, ctx, now).response.status == 401
  {
    if t != "" {
      var k :| 0 <= k < |rs| && rs[k].token == t;
      RevokedTokenRefusedForever(LogoutStep(rs, Some(t)).records, reqs, k, users, signatureOk, newToken, ctx, now);
    }
  }

  /**
   * After logout-all for `u`, every token `u` held before is refused from
   * then on, and no row of `u` is left active.
   */
  lemma LogoutAllEndsSessions(rs: seq<Record>, u: UserId, k: nat, reqs: seq<Request>,
                              users: set<UserId>, signatureOk: bool, newToken: Token,
                              ctx: Context, now: int)
    requires WellFormed(rs) && k < |rs| && rs[k].userId == u
    ensures var after := Run(LogoutAllStep(rs, u).records, reqs);
      RefreshStep(after, Some(rs[k].token), users, signatureOk, newToken, ctx, now).response.status == 401
  {
    RevokedTokenRefusedForever(LogoutAllStep(rs, u).records, reqs, k, users, signatureOk, newToken, ctx, now);
  }

  // ---------------------------------------------------------------------
  // Scenarios

  /** With valid signatures: login issues r1; r1 rotates to r2; r1 is then refused; r2 rotates to r3. */
  lemma RotationScenario(ctx: Context)
    ensures
      var s0 := LoginStep([], Some(User(1, true)), true, "r1", ctx, 0);
      var s1 := RefreshStep(s0.records, Some("r1"), {1}, true, "r2", ctx, 1000);
      var s2 := RefreshStep(s1.records, Some("r1"), {1}, true, "r3", ctx, 2000);
      var s3 := RefreshStep(s2.records, Some("r2"), {1}, true, "r3", ctx, 3000);
      s0.response.status == 200 && s1.response.status == 200 &&
      s2.response.status == 401 && s3.response.status == 200
  {
    var r0 := [NewRecord(0, "r1", 1, 604800000, ctx)];
    LoginOutcome([], Some(User(1, true)), true, "r1", ctx, 0);
    assert LoginStep([], Some(User(1, true)), true, "r1", ctx, 0).records == r0;
    var r1 := [r0[0].(isRevoked := true), NewRecord(1, "r2", 1, 1000 + 604800000, ctx)];
    assert !HasToken(r0, "r2");
    RefreshRotates(r0, "r1", {1}, true, "r2", ctx, 1000, 0);
    assert RefreshStep(r0, Some("r1"), {1}, true, "r2", ctx, 1000).records == r1;
    DeadRowRejected(r1, 0, {1}, true, "r3", ctx, 2000);
    assert !HasToken(r1, "r3");
    RefreshRotates(r1, "r2", {1}, true, "r3", ctx, 3000, 1);
  }

  /** Two sessions of user 1; after logout-all neither token is accepted. */
  lemma LogoutAllScenario(signatureOk: bool, ctx: Context)
    ensures
      var s0 := LoginStep([], Some(User(1, true)), true, "r1", ctx, 0);
      var s1 := LoginStep(s0.records, Some(User(1, true)), true, "r2", ctx, 0);
      var s2 := LogoutAllStep(s1.records, 1);
      s1.response.status == 200 &&
      RefreshStep(s2.records, Some("r1"), {1}, signatureOk, "r3", ctx, 1000).response.status == 401 &&
      RefreshStep(s2.records, Some("r2"), {1}, signatureOk, "r3", ctx, 1000).response.status == 401
  {
    var s0 := LoginStep([], Some(User(1, true)), true, "r1", ctx, 0);
    var s1 := LoginStep(s0.records, Some(User(1, true)), true, "r2", ctx, 0);
    assert !HasToken(s0.records, "r2");
    LogoutAllEndsSessions(s1.records, 1, 0, [], {1}, signatureOk, "r3", ctx, 1000);
    LogoutAllEndsSessions(s1.records, 1, 1, [], {1}, signatureOk, "r3", ctx, 1000);
  }
}
