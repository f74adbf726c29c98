/**
 * The refresh-token record (the `refresh_tokens` table) and the three
 * table operations the session controller performs on it: `create`,
 * `update ... set isRevoked = true where ...` and the active-token lookup.
 *
 * The table is a sequence of rows in insertion order. A row's primary key
 * is its position: rows are never deleted, so a fresh position is a fresh
 * key, which is all the UUIDv4 default of the schema guarantees.
 */
module RefreshTokens {

  datatype Option<T> = None | Some(value: T)

  /** The id of a user row (a UUID in the schema); only identity matters. */
  type UserId = nat

  /** The bearer value of a refresh token. */
  type Token = string

  /** Seven days in milliseconds: the lifetime given to every new row. */
  const RefreshLifetime: int := 7 * 24 * 60 * 60 * 1000

  /**
   * One row. `token`, `userId` and `expiresAt` are required (not nullable),
   * `userAgent` and `ipAddress` are optional metadata.
   */
  datatype Record = Record(
    id: nat,
    token: Token,
    userId: UserId,
    expiresAt: int,
    isRevoked: bool,
    userAgent: Option<string>,
    ipAddress: Option<string>)

  /** The request metadata written into a new row. */
  datatype Context = Context(userAgent: Option<string>, ipAddress: Option<string>)

  /** The three `where` clauses the controller revokes by. */
  datatype Where = ById(id: nat) | ByToken(token: Token) | ByUser(userId: UserId)

  predicate Matches(r: Record, w: Where) {
    match w
    case ById(id) => r.id == id
    case ByToken(t) => r.token == t
    case ByUser(u) => r.userId == u
  }

  /** The lookup condition: this token, not revoked, expiring strictly after `now`. */
  predicate ActiveFor(r: Record, t: Token, now: int) {
    r.token == t && !r.isRevoked && r.expiresAt > now
  }

  predicate HasToken(rs: seq<Record>, t: Token) {
    exists i :: 0 <= i < |rs| && rs[i].token == t
  }

  /** Every row carries a distinct primary key (its position). */
  predicate KeyedById(rs: seq<Record>) {
    forall i :: 0 <= i < |rs| ==> rs[i].id == i
  }

  /** The unique index on `token`. */
  predicate UniqueTokens(rs: seq<Record>) {
    forall i, j :: 0 <= i < j < |rs| ==> rs[i].token != rs[j].token
  }

  /**
   * The table constraints the schema declares: the primary key and the
   * unique index on `token`.
   */
  predicate WellFormed(rs: seq<Record>): (b: bool)
    ensures b ==> forall i, j :: 0 <= i < j < |rs| ==> rs[i].id != rs[j].id && rs[i].token != rs[j].token
  {
    KeyedById(rs) && UniqueTokens(rs)
  }

  /**
   * `b` is a later state of table `a`: no row was deleted, and each old row
   * is unchanged except that it may have been revoked. So owner, token and
   * expiry of a row are fixed at insertion, and revocation is never undone.
   */
  ghost predicate Extends(a: seq<Record>, b: seq<Record>) {
    |a| <= |b| &&
    forall i :: 0 <= i < |a| ==> b[i] == a[i] || b[i] == a[i].(isRevoked := true)
  }

  /** The row `Created` appends: `isRevoked` takes its default, false. */
  function NewRecord(id: nat, token: Token, userId: UserId, expiresAt: int, ctx: Context): Record {
    Record(id, token, userId, expiresAt, false, ctx.userAgent, ctx.ipAddress)
  }

  /**
   * `RefreshToken.create`: appends a row, or fails (None) with a unique
   * constraint violation when the token is already in the table.
   */
  function Created(rs: seq<Record>, token: Token, userId: UserId, expiresAt: int, ctx: Context)
    : (r: Option<seq<Record>>)
    ensures r.Some? <==> !HasToken(rs, token)
    ensures r.Some? ==>
      |r.value| == |rs| + 1 && r.value[..|rs|] == rs && Extends(rs, r.value) &&
      r.value[|rs|].token == token && r.value[|rs|].userId == userId &&
      r.value[|rs|].expiresAt == expiresAt && !r.value[|rs|].isRevoked
    ensures r.Some? && WellFormed(rs) ==> WellFormed(r.value)
  {
    if HasToken(rs, token) then None
    else Some(rs + [NewRecord(|rs|, token, userId, expiresAt, ctx)])
  }

  /** `RefreshToken.update({isRevoked: true}, {where: w})`. */
  function Updated(rs: seq<Record>, w: Where): (r: seq<Record>)
    ensures |r| == |rs|
    ensures forall i :: 0 <= i < |rs| ==>
      r[i] == if Matches(rs[i], w) then rs[i].(isRevoked := true) else rs[i]
  {
    if rs == [] then []
    else [if Matches(rs[0], w) then rs[0].(isRevoked := true) else rs[0]] + Updated(rs[1..], w)
  }

  /**
   * The row `findOne` returns for the active-token query, as an index.
   * The first match is returned; under `UniqueTokens` there is at most one.
   */
  function ActiveIndex(rs: seq<Record>, t: Token, now: int): (k: Option<nat>)
    ensures k.Some? ==> k.value < |rs| && ActiveFor(rs[k.value], t, now)
    ensures k.Some? ==> forall j :: 0 <= j < k.value ==> !ActiveFor(rs[j], t, now)
    ensures k.None? ==> forall j :: 0 <= j < |rs| ==> !ActiveFor(rs[j], t, now)
  {
    if rs == [] then None
    else if ActiveFor(rs[0], t, now) then Some(0)
    else match ActiveIndex(rs[1..], t, now)
      case None => None
      case Some(k) => Some(k + 1)
  }

  /** The update only ever revokes, and it keeps both table constraints. */
  lemma UpdatedKeepsTable(rs: seq<Record>, w: Where)
    ensures Extends(rs, Updated(rs, w))
    ensures WellFormed(rs) ==> WellFormed(Updated(rs, w))
    ensures forall i :: 0 <= i < |rs| ==> Updated(rs, w)[i].token == rs[i].token
  {
  }

  /** When no row matches the clause, the update writes nothing. */
  lemma {:induction false} UpdatedNoMatch(rs: seq<Record>, w: Where)
    requires forall i :: 0 <= i < |rs| ==> !Matches(rs[i], w)
    ensures Updated(rs, w) == rs
  {
    if rs != [] {
      UpdatedNoMatch(rs[1..], w);
    }
  }

  /** Under the unique index, a row that is active for `t` is the one the lookup finds. */
  lemma ActiveIndexUnique(rs: seq<Record>, t: Token, now: int, i: nat)
    requires WellFormed(rs) && i < |rs| && ActiveFor(rs[i], t, now)
    ensures ActiveIndex(rs, t, now) == Some(i)
  {
  }

  /**
   * Under the unique index, a token whose row is revoked or expired has no
   * active row at all: the lookup fails.
   */
  lemma DeadTokenNotFound(rs: seq<Record>, t: Token, now: int, i: nat)
    requires WellFormed(rs) && i < |rs| && rs[i].token == t && !ActiveFor(rs[i], t, now)
    ensures ActiveIndex(rs, t, now) == None
  {
  }

  lemma ExtendsTransitive(a: seq<Record>, b: seq<Record>, c: seq<Record>)
    requires Extends(a, b) && Extends(b, c)
    ensures Extends(a, c)
  {
  }
}
