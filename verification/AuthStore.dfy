/** The token handlers as methods that change the three tables in place. */
module AuthStore {
  import opened Common
  import opened TokenLifecycle

  /** The tables after one event, which do not depend on the recorded history. */
  function StepDb(db: Db, config: Config, e: Event): Db {
    Step(World(db, config, e.now, {}, map[], map[], map[]), e).db
  }

  lemma StepDbIsStep(w: World, e: Event)
    ensures Step(w, e).db == StepDb(w.db, w.config, e)
  {
    match e
    case Register(_, _, _, _) =>
    case Login(_, _, _, _) =>
    case Refresh(_, _, _) =>
    case Logout(_, _) =>
    case ForgotPassword(_, _, _) =>
    case ResetPassword(_, _, _) =>
    case ChangePassword(_, _, _, _) =>
    case DeleteProfile(_, _) =>
    case Reactivate(_, _) =>
    case RefreshCleanup(_) =>
    case ResetCleanup(_) =>
  }

  class Store {
    const config: Config
    var users: map<UserId, User>
    var refresh: RefreshTable
    var reset: ResetTable

    ghost function Tables(): Db
      reads this
    {
      Db(users, refresh, reset)
    }

    constructor (config: Config)
      ensures this.config == config && Tables() == Empty(0, config).db
    {
      this.config := config;
      users, refresh, reset := map[], map[], map[];
    }

    /** Inserts the refresh token of a new session: one more live token of its user, and no other change. */
    method IssueAuthTokens(user: UserId, issued: TokenId, now: Instant)
      modifies this`refresh
      ensures Tables() == OpenSession(old(Tables()), user, issued, now, config)
      ensures issued !in old(refresh) ==>
                && LiveOf(refresh, user) == LiveOf(old(refresh), user) + {issued}
                && |LiveOf(refresh, user)| == |LiveOf(old(refresh), user)| + 1
                && (forall other :: other != user ==> LiveOf(refresh, other) == LiveOf(old(refresh), other))
                && Weakened(old(refresh), refresh - {issued})
      ensures issued in refresh && IsNewSession(refresh[issued], user, now, config)
      ensures refresh == old(refresh)[issued := refresh[issued]]
      ensures 0 < config.refreshDays ==> Claimable(refresh, issued, now)
    {
      refresh := refresh[issued := RefreshToken(user, RefreshExpiry(now, config), now, false)];
    }

    /** `/login`; the caller cannot tell the three failures apart. */
    method Login(now: Instant, user: UserId, password: string, issued: TokenId) returns (ok: bool)
      modifies this`refresh
      ensures Tables() == StepDb(old(Tables()), config, Event.Login(now, user, password, issued))
      ensures ok <==> user in users && users[user].active && users[user].password == password
      ensures !ok ==> refresh == old(refresh)
      ensures ok ==> issued in refresh && refresh == old(refresh)[issued := refresh[issued]]
      ensures ok ==> IsNewSession(refresh[issued], user, now, config)
    {
      ok := false;
      if user !in users {
        return;
      }
      if users[user].password != password {
        return;
      }
      if !users[user].active {
        return;
      }
      IssueAuthTokens(user, issued, now);
      ok := true;
    }

    /** `/refresh`: claim, theft response, rotation. */
    method Refresh(now: Instant, presented: TokenId, issued: TokenId) returns (outcome: RefreshOutcome)
      modifies this`refresh
      ensures Tables() == StepDb(old(Tables()), config, Event.Refresh(now, presented, issued))
      ensures outcome == Outcome(old(Tables()), presented, now)
      ensures outcome in {Rotated, Claimed} <==>
                presented in old(refresh) && !old(refresh)[presented].revoked && now < old(refresh)[presented].expiresAt
      ensures outcome in {Rotated, Claimed} ==>
                var user := old(refresh)[presented].user;
                var claimed := old(refresh)[presented := old(refresh)[presented].(revoked := true)];
                && (outcome == Rotated <==> user in users && users[user].active)
                && (outcome == Claimed ==> refresh == claimed)
                && (outcome == Rotated ==>
                      && issued in refresh && refresh == claimed[issued := refresh[issued]]
                      && IsNewSession(refresh[issued], user, now, config))
      ensures outcome == Replayed <==> presented in old(refresh) && old(refresh)[presented].revoked
      ensures outcome == Replayed ==>
                && refresh == RevokeAll(old(refresh), old(refresh)[presented].user)
                && LiveOf(refresh, old(refresh)[presented].user) == {}
      ensures outcome == Refused ==> refresh == old(refresh)
    {
      if !Claimable(refresh, presented, now) {
        if presented in refresh && refresh[presented].revoked {
          refresh := RevokeAll(refresh, refresh[presented].user);
          return Replayed;
        }
        return Refused;
      }
      var user := refresh[presented].user;
      refresh := refresh[presented := refresh[presented].(revoked := true)];
      if user !in users || !users[user].active {
        return Claimed;
      }
      refresh := refresh[issued := RefreshToken(user, RefreshExpiry(now, config), now, false)];
      return Rotated;
    }

    /** `/logout`: revokes the token if it is live, and never says whether it was. */
    method Logout(now: Instant, presented: TokenId)
      modifies this`refresh
      ensures Tables() == StepDb(old(Tables()), config, Event.Logout(now, presented))
      ensures !Live(refresh, presented)
      ensures refresh == if presented in old(refresh)
                         then old(refresh)[presented := old(refresh)[presented].(revoked := true)] else old(refresh)
    {
      if presented in refresh && !refresh[presented].revoked {
        refresh := refresh[presented := refresh[presented].(revoked := true)];
      }
    }

    /** The loop that revokes a user's outstanding refresh tokens one by one. */
    method RevokeSessions(user: UserId)
      modifies this`refresh
      ensures refresh == RevokeAll(old(refresh), user)
      ensures refresh.Keys == old(refresh).Keys && LiveOf(refresh, user) == {}
      ensures forall h :: h in refresh ==>
                refresh[h] == if old(refresh)[h].user == user then old(refresh)[h].(revoked := true)
                              else old(refresh)[h]
    {
      var outstanding := set h | h in refresh && refresh[h].user == user && !refresh[h].revoked;
      while outstanding != {}
        invariant outstanding <= refresh.Keys == old(refresh).Keys
        invariant forall h :: h in outstanding ==> refresh[h] == old(refresh)[h] && refresh[h].user == user
        invariant forall h :: h in refresh && h !in outstanding ==> refresh[h] == RevokeAll(old(refresh), user)[h]
        decreases outstanding
      {
        var h :| h in outstanding;
        refresh := refresh[h := refresh[h].(revoked := true)];
        outstanding := outstanding - {h};
      }
    }

    /** `/forgot-password`: supersedes earlier links, then mints one. */
    method ForgotPassword(now: Instant, user: UserId, issued: TokenId)
      modifies this`reset
      ensures Tables() == StepDb(old(Tables()), config, Event.ForgotPassword(now, user, issued))
      ensures !(user in users && users[user].active) ==> reset == old(reset)
      ensures user in users && users[user].active ==>
                && reset.Keys == old(reset).Keys + {issued}
                && reset[issued] == ResetToken(user, now + config.resetMinutes * 60_000_000, None)
                && (forall h :: h in old(reset) && h != issued ==>
                      reset[h] == if old(reset)[h].user == user && old(reset)[h].usedAt.None?
                                  then old(reset)[h].(usedAt := Some(now)) else old(reset)[h])
      ensures user in users && users[user].active ==>
                forall at :: Redeemable(Tables(), issued, at) <==> at < now + config.resetMinutes * 60_000_000
    {
      if user in users && users[user].active {
        reset := Superseded(reset, user, now);
        reset := reset[issued := ResetToken(user, now + config.resetMinutes * 60 * SECOND, None)];
      }
    }

    /** `/reset-password`: all invalid tokens look alike; a valid one works once. */
    method ResetPassword(now: Instant, presented: TokenId, password: string) returns (ok: bool)
      modifies this
      ensures Tables() == StepDb(old(Tables()), config, Event.ResetPassword(now, presented, password))
      ensures ok <==>
                && presented in old(reset) && old(reset)[presented].usedAt.None?
                && now < old(reset)[presented].expiresAt
                && old(reset)[presented].user in old(users) && old(users)[old(reset)[presented].user].active
      ensures !ok ==> Tables() == old(Tables())
      ensures ok ==>
                var user := old(reset)[presented].user;
                && users == old(users)[user := old(users)[user].(password := password)]
                && refresh == RevokeAll(old(refresh), user)
                && reset == old(reset)[presented := old(reset)[presented].(usedAt := Some(now))]
      ensures ok ==> !Redeemable(Tables(), presented, now)
      ensures ok ==> CanLogin(Tables(), old(reset)[presented].user, password)
    {
      ok := false;
      if presented !in reset || reset[presented].usedAt.Some? || reset[presented].expiresAt <= now {
        return;
      }
      var user := reset[presented].user;
      if user !in users || !users[user].active {
        return;
      }
      users := users[user := users[user].(password := password)];
      RevokeSessions(user);
      reset := reset[presented := reset[presented].(usedAt := Some(now))];
      ok := true;
    }

    /** `/profile/change-password` */
    method ChangePassword(now: Instant, user: UserId, current: string, password: string) returns (ok: bool)
      modifies this
      ensures Tables() == StepDb(old(Tables()), config, Event.ChangePassword(now, user, current, password))
      ensures ok <==> user in old(users) && old(users)[user].password == current
      ensures reset == old(reset) && (!ok ==> Tables() == old(Tables()))
      ensures ok ==>
                && users == old(users)[user := old(users)[user].(password := password)]
                && refresh == RevokeAll(old(refresh), user) && LiveOf(refresh, user) == {}
    {
      ok := false;
      if user !in users {
        return;
      }
      if users[user].password != current {
        return;
      }
      users := users[user := users[user].(password := password)];
      RevokeSessions(user);
      ok := true;
    }

    /** `DELETE /profile`: a soft delete. */
    method DeleteProfile(now: Instant, user: UserId) returns (ok: bool)
      modifies this
      ensures Tables() == StepDb(old(Tables()), config, Event.DeleteProfile(now, user))
      ensures ok <==> user in old(users)
      ensures reset == old(reset) && (!ok ==> Tables() == old(Tables()))
      ensures ok ==>
                && users == old(users)[user := old(users)[user].(active := false)]
                && refresh == RevokeAll(old(refresh), user) && LiveOf(refresh, user) == {}
    {
      ok := user in users;
      if ok {
        users := users[user := users[user].(active := false)];
        RevokeSessions(user);
      }
    }

    /** `refresh_token_cleanup` */
    method RefreshTokenCleanup(now: Instant) returns (deleted: set<TokenId>)
      modifies this`refresh
      ensures Tables() == StepDb(old(Tables()), config, RefreshCleanup(now))
      ensures deleted == old(refresh).Keys - refresh.Keys
      ensures forall h :: h in refresh ==> h in old(refresh) && refresh[h] == old(refresh)[h]
      ensures forall h :: h in old(refresh) ==>
                (h in deleted <==>
                   && old(refresh)[h].expiresAt < now
                   && (|NewerExpired(old(refresh), h, now)| >= 10 || old(refresh)[h].expiresAt < now - 30 * DAY))
      ensures forall g, h :: g in old(refresh) && h in old(refresh) ==>
                (g in NewerExpired(old(refresh), h, now) <==>
                   && old(refresh)[g].expiresAt < now && old(refresh)[g].user == old(refresh)[h].user
                   && (old(refresh)[g].createdAt > old(refresh)[h].createdAt ||
                       (old(refresh)[g].createdAt == old(refresh)[h].createdAt && g > h)))
    {
      deleted := set h | h in refresh && Expendable(refresh, h, now);
      refresh := map h | h in refresh && h !in deleted :: refresh[h];
    }

    /** `password_reset_token_cleanup` */
    method PasswordResetTokenCleanup(now: Instant) returns (deleted: set<TokenId>)
      modifies this`reset
      ensures Tables() == StepDb(old(Tables()), config, ResetCleanup(now))
      ensures deleted == old(reset).Keys - reset.Keys
      ensures forall h :: h in deleted ==> !Redeemable(old(Tables()), h, now)
      ensures forall h :: h in reset <==>
                h in old(reset) && old(reset)[h].usedAt.None? && now <= old(reset)[h].expiresAt
      ensures forall h :: h in reset ==> reset[h] == old(reset)[h]
    {
      deleted := set h | h in reset && (reset[h].usedAt.Some? || reset[h].expiresAt < now);
      reset := map h | h in reset && h !in deleted :: reset[h];
    }
  }
}
