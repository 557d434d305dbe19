/**
 The single-use claim of `/refresh` at statement granularity. Several requests run at once; the
 claiming UPDATE takes a row lock that is held until its transaction commits or rolls back, and a
 blocked UPDATE re-evaluates its WHERE clause when the lock is released.
 */
module TokenClaim {
  import opened TokenLifecycle

  type RequestId = nat

  /** `holder`: which open transaction has claimed a row. `pairs`: committed rotations per token. */
  datatype Session = Session(rows: RefreshTable, holder: map<TokenId, RequestId>, pairs: map<TokenId, nat>)

  datatype Statement =
    /** UPDATE ... SET revoked WHERE token_hash AND NOT revoked AND expires_at > now RETURNING */
    | Claim(request: RequestId, token: TokenId, now: Instant)
    /** INSERT of the new token and COMMIT; without a new token when the user is not active. */
    | Commit(request: RequestId, token: TokenId, active: bool, issued: TokenId, row: RefreshToken)
    | Rollback(request: RequestId, token: TokenId)
    /** Any transaction that revokes all of a user's tokens; it waits for the rows' locks. */
    | RevokeUser(user: UserId)
    | Delete(token: TokenId)

  predicate Holds(s: Session, request: RequestId, h: TokenId) { h in s.holder && s.holder[h] == request }

  predicate Blocked(s: Session, user: UserId) {
    exists h :: h in s.holder && h in s.rows && s.rows[h].user == user
  }

  function Pairs(s: Session, h: TokenId): nat { if h in s.pairs then s.pairs[h] else 0 }

  /** One statement; a blocked or impossible one changes nothing. */
  function Execute(s: Session, t: Statement): Session {
    match t
    case Claim(request, h, now) =>
      if h in s.holder || !Claimable(s.rows, h, now) then s else s.(holder := s.holder[h := request])
    case Commit(request, h, active, issued, row) =>
      if !Holds(s, request, h) || h !in s.rows then s
      else var revoked := Revoke(s.rows, h);
           if !active then s.(rows := revoked, holder := s.holder - {h})
           else Session(revoked[issued := row], s.holder - {h}, s.pairs[h := Pairs(s, h) + 1])
    case Rollback(request, h) =>
      if Holds(s, request, h) then s.(holder := s.holder - {h}) else s
    case RevokeUser(user) =>
      if Blocked(s, user) then s else s.(rows := RevokeAll(s.rows, user))
    case Delete(h) =>
      if h in s.holder then s else s.(rows := s.rows - {h})
  }

  function ExecuteAll(s: Session, ts: seq<Statement>): Session
    decreases |ts|
  {
    if ts == [] then s else ExecuteAll(Execute(s, ts[0]), ts[1..])
  }

  /** New tokens are new: no row, and never rotated before. */
  predicate FreshTokens(s: Session, ts: seq<Statement>)
    decreases |ts|
  {
    ts != [] ==>
      && (ts[0].Commit? ==> ts[0].issued !in s.rows && ts[0].issued !in s.pairs)
      && FreshTokens(Execute(s, ts[0]), ts[1..])
  }

  /** A held row is live and unrotated; a rotated one is never live again. */
  ghost predicate SingleUse(s: Session) {
    && (forall h :: h in s.holder ==> Live(s.rows, h) && Pairs(s, h) == 0)
    && (forall h: TokenId :: Pairs(s, h) <= 1)
    && (forall h: TokenId :: Pairs(s, h) == 1 ==> !Live(s.rows, h))
  }

  lemma StatementKeepsSingleUse(s: Session, t: Statement)
    requires SingleUse(s) && FreshTokens(s, [t])
    ensures SingleUse(Execute(s, t))
  {
    var s' := Execute(s, t);
    forall g: TokenId
      ensures Pairs(s', g) == Pairs(s, g) || (t.Commit? && g == t.token && g in s.holder && Pairs(s', g) == 1)
    {
    }
    if t.RevokeUser? && !Blocked(s, t.user) {
      assert forall h: TokenId :: h in s.holder ==> s.rows[h].user != t.user;
    }
  }

  /**
   However the statements of concurrent requests interleave, with rollbacks, revocations and
   deletions in between, one refresh token yields at most one new pair.
   */
  lemma {:induction false} OneTokenOnePair(s: Session, ts: seq<Statement>, h: TokenId)
    requires SingleUse(s) && FreshTokens(s, ts)
    ensures Pairs(ExecuteAll(s, ts), h) <= 1
    decreases |ts|
  {
    if ts == [] {
    } else {
      StatementKeepsSingleUse(s, ts[0]);
      OneTokenOnePair(Execute(s, ts[0]), ts[1..], h);
    }
  }

  /** A rollback undoes the claim; while it is held, nobody else claims, revokes or deletes the row. */
  lemma ClaimIsExclusive(s: Session, r: RequestId, h: TokenId, now: Instant, q: RequestId, later: Instant)
    requires h !in s.holder && h in s.rows && !s.rows[h].revoked && now < s.rows[h].expiresAt
    ensures var claimed := Execute(s, Claim(r, h, now));
            && Holds(claimed, r, h) && claimed.rows == s.rows && claimed.pairs == s.pairs
            && Execute(claimed, Rollback(r, h)) == s
            && Execute(claimed, Claim(q, h, later)) == claimed
            && Execute(claimed, RevokeUser(s.rows[h].user)) == claimed
            && Execute(claimed, Delete(h)) == claimed
            && (q != r ==> Execute(claimed, Rollback(q, h)) == claimed)
  {
    assert s.holder[h := r] - {h} == s.holder;
  }

  /** With no claim open, a revocation and a deletion take effect at once. */
  lemma UnheldRowsChange(s: Session, user: UserId, h: TokenId)
    requires s.holder == map[]
    ensures Execute(s, RevokeUser(user)) == s.(rows := RevokeAll(s.rows, user))
    ensures Execute(s, Delete(h)) == s.(rows := s.rows - {h})
  {
  }

  /**
   Run one after the other, claim and commit are the transaction of `TokenLifecycle`; it counts as
   a pair exactly when it rotates.
   */
  lemma UninterruptedIsSerial(
      db: Db, config: Config, request: RequestId, h: TokenId, issued: TokenId, now: Instant)
    requires Outcome(db, h, now) in {Rotated, Claimed} && issued !in db.refresh
    ensures var row := NewSession(db.refresh[h].user, now, config);
            var active := Outcome(db, h, now) == Rotated;
            var claimed := Execute(Session(db.refresh, map[], map[]), Claim(request, h, now));
            var done := Execute(claimed, Commit(request, h, active, issued, row));
            && done.rows == RefreshDb(db, h, issued, now, config).refresh && done.holder == map[]
            && Pairs(done, h) == if active then 1 else 0
  {
  }
}
