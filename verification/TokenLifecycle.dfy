/**
 Refresh and password-reset tokens. Each handler is one transaction on the users, refresh_tokens
 and password_reset_tokens tables; token digests are identifiers that are never minted twice.
 */
module TokenLifecycle {
  import opened Common

  type UserId = nat
  type TokenId = nat

  /** Microseconds. */
  type Instant = int

  const SECOND: int := 1_000_000
  const DAY: int := 86_400 * SECOND

  /** Expired refresh tokens kept per user by the cleanup, and for how long after expiry. */
  const KEEP_PER_USER: nat := 10
  const GRACE: int := 30 * DAY

  datatype User = User(active: bool, password: string)

  datatype RefreshToken = RefreshToken(user: UserId, expiresAt: Instant, createdAt: Instant, revoked: bool)

  datatype ResetToken = ResetToken(user: UserId, expiresAt: Instant, usedAt: Option<Instant>)

  type RefreshTable = map<TokenId, RefreshToken>
  type ResetTable = map<TokenId, ResetToken>

  datatype Db = Db(users: map<UserId, User>, refresh: RefreshTable, reset: ResetTable)

  datatype Config = Config(refreshDays: int, resetMinutes: int)

  /**
   The tables with their history: every identifier minted so far, whose each refresh token is,
   which tokens each was rotated from, and how many sessions a user opened since the last time
   all of them were revoked.
   */
  datatype World = World(
    db: Db, config: Config, clock: Instant, minted: set<TokenId>,
    owner: map<TokenId, UserId>, ancestors: map<TokenId, set<TokenId>>, sessions: map<UserId, nat>)

  datatype Event =
    | Register(now: Instant, user: UserId, password: string, issued: TokenId)
    | Login(now: Instant, user: UserId, password: string, issued: TokenId)
    | Refresh(now: Instant, presented: TokenId, issued: TokenId)
    | Logout(now: Instant, presented: TokenId)
    | ForgotPassword(now: Instant, user: UserId, issued: TokenId)
    | ResetPassword(now: Instant, presented: TokenId, password: string)
    | ChangePassword(now: Instant, user: UserId, current: string, password: string)
    | DeleteProfile(now: Instant, user: UserId)
    | Reactivate(now: Instant, user: UserId)
    | RefreshCleanup(now: Instant)
    | ResetCleanup(now: Instant)

  // ----- refresh tokens -----

  /** A token that a rotation would accept, expiry aside. */
  predicate Live(t: RefreshTable, h: TokenId) { h in t && !t[h].revoked }

  function RefreshExpiry(now: Instant, config: Config): (t: Instant)
    ensures now + config.refreshDays * DAY - SECOND < t <= now + config.refreshDays * DAY
  {
    now - now % SECOND + config.refreshDays * DAY
  }

  function NewSession(user: UserId, now: Instant, config: Config): RefreshToken {
    RefreshToken(user, RefreshExpiry(now, config), now, false)
  }

  /** A row as a login or a rotation inserts it: unrevoked, and valid for the configured days up to a second. */
  predicate IsNewSession(t: RefreshToken, user: UserId, now: Instant, config: Config) {
    && t.user == user && t.createdAt == now && !t.revoked
    && now + config.refreshDays * DAY - SECOND < t.expiresAt <= now + config.refreshDays * DAY
  }

  /** The claiming UPDATE: unrevoked and not expired. */
  predicate Claimable(t: RefreshTable, h: TokenId, now: Instant) {
    Live(t, h) && now < t[h].expiresAt
  }

  function Revoke(t: RefreshTable, h: TokenId): RefreshTable
    requires h in t
  {
    t[h := t[h].(revoked := true)]
  }

  function RevokeAll(t: RefreshTable, user: UserId): RefreshTable {
    map h | h in t :: if t[h].user == user then t[h].(revoked := true) else t[h]
  }

  predicate ActiveUser(db: Db, user: UserId) { user in db.users && db.users[user].active }

  datatype RefreshOutcome = Rotated | Claimed | Replayed | Refused

  /** What `/refresh` does with a presented token. `Claimed`: revoked, but its user is not active. */
  function Outcome(db: Db, h: TokenId, now: Instant): RefreshOutcome {
    if Claimable(db.refresh, h, now) then
      if ActiveUser(db, db.refresh[h].user) then Rotated else Claimed
    else if h in db.refresh && db.refresh[h].revoked then Replayed
    else Refused
  }

  function RefreshDb(db: Db, h: TokenId, issued: TokenId, now: Instant, config: Config): Db {
    match Outcome(db, h, now)
    case Rotated =>
      db.(refresh := Revoke(db.refresh, h)[issued := NewSession(db.refresh[h].user, now, config)])
    case Claimed => db.(refresh := Revoke(db.refresh, h))
    case Replayed => db.(refresh := RevokeAll(db.refresh, db.refresh[h].user))
    case Refused => db
  }

  // ----- cleanup of refresh tokens -----

  predicate Expired(t: RefreshTable, h: TokenId, now: Instant) { h in t && t[h].expiresAt < now }

  /** Created later; rows of the same instant rank by identifier. */
  predicate Newer(t: RefreshTable, g: TokenId, h: TokenId)
    requires g in t && h in t
  {
    t[g].createdAt > t[h].createdAt || (t[g].createdAt == t[h].createdAt && g > h)
  }

  function NewerExpired(t: RefreshTable, h: TokenId, now: Instant): set<TokenId>
    requires h in t
  {
    set g | g in t && Expired(t, g, now) && t[g].user == t[h].user && Newer(t, g, h)
  }

  /** Expired, and either beyond the newest ten of its user or beyond the grace period. */
  predicate Expendable(t: RefreshTable, h: TokenId, now: Instant) {
    Expired(t, h, now) && (|NewerExpired(t, h, now)| + 1 > KEEP_PER_USER || t[h].expiresAt < now - GRACE)
  }

  function CleanedRefresh(t: RefreshTable, now: Instant): RefreshTable {
    map h | h in t && !Expendable(t, h, now) :: t[h]
  }

  // ----- reset tokens -----

  predicate Unredeemed(t: ResetTable, h: TokenId) { h in t && t[h].usedAt.None? }

  function Superseded(t: ResetTable, user: UserId, now: Instant): ResetTable {
    map h | h in t :: if t[h].user == user && t[h].usedAt.None? then t[h].(usedAt := Some(now)) else t[h]
  }

  predicate Redeemable(db: Db, h: TokenId, now: Instant) {
    Unredeemed(db.reset, h) && now < db.reset[h].expiresAt && ActiveUser(db, db.reset[h].user)
  }

  function CleanedReset(t: ResetTable, now: Instant): ResetTable {
    map h | h in t && t[h].usedAt.None? && now <= t[h].expiresAt :: t[h]
  }

  function ForgotDb(db: Db, user: UserId, issued: TokenId, now: Instant, config: Config): Db {
    if !ActiveUser(db, user) then db
    else db.(reset := Superseded(db.reset, user, now)
                      [issued := ResetToken(user, now + config.resetMinutes * 60 * SECOND, None)])
  }

  function ResetDb(db: Db, h: TokenId, password: string, now: Instant): Db {
    if !Redeemable(db, h, now) then db
    else var user := db.reset[h].user;
         Db(db.users[user := db.users[user].(password := password)],
            RevokeAll(db.refresh, user),
            db.reset[h := db.reset[h].(usedAt := Some(now))])
  }

  // ----- sessions and accounts -----

  function OpenSession(db: Db, user: UserId, issued: TokenId, now: Instant, config: Config): Db {
    db.(refresh := db.refresh[issued := NewSession(user, now, config)])
  }

  predicate CanLogin(db: Db, user: UserId, password: string) {
    ActiveUser(db, user) && db.users[user].password == password
  }

  function Sessions(w: World, user: UserId): nat {
    if user in w.sessions then w.sessions[user] else 0
  }

  function Step(w: World, e: Event): World {
    var db, config, now := w.db, w.config, e.now;
    var w := w.(clock := now);
    match e
    case Register(_, user, password, issued) =>
      if user in db.users then w
      else WithSession(w.(db := db.(users := db.users[user := User(true, password)])), user, issued)
    case Login(_, user, password, issued) =>
      if CanLogin(db, user, password) then WithSession(w, user, issued) else w
    case Refresh(_, h, issued) =>
      var w := w.(db := RefreshDb(db, h, issued, now, config));
      match Outcome(db, h, now) {
        case Rotated =>
          w.(minted := w.minted + {issued}, owner := w.owner[issued := db.refresh[h].user],
             ancestors := w.ancestors[issued := (if h in w.ancestors then w.ancestors[h] else {}) + {h}])
        case Replayed => w.(sessions := w.sessions[db.refresh[h].user := 0])
        case _ => w
      }
    case Logout(_, h) =>
      if Live(db.refresh, h) then w.(db := db.(refresh := Revoke(db.refresh, h))) else w
    case ForgotPassword(_, user, issued) =>
      var w := w.(db := ForgotDb(db, user, issued, now, config));
      if ActiveUser(db, user) then w.(minted := w.minted + {issued}) else w
    case ResetPassword(_, h, password) =>
      var w := w.(db := ResetDb(db, h, password, now));
      if Redeemable(db, h, now) then w.(sessions := w.sessions[db.reset[h].user := 0]) else w
    case ChangePassword(_, user, current, password) =>
      if user !in db.users || db.users[user].password != current then w
      else w.(db := db.(users := db.users[user := db.users[user].(password := password)],
                        refresh := RevokeAll(db.refresh, user)),
              sessions := w.sessions[user := 0])
    case DeleteProfile(_, user) =>
      if user !in db.users then w
      else w.(db := db.(users := db.users[user := db.users[user].(active := false)],
                        refresh := RevokeAll(db.refresh, user)),
              sessions := w.sessions[user := 0])
    case Reactivate(_, user) =>
      if user !in db.users then w
      else w.(db := db.(users := db.users[user := db.users[user].(active := true)]))
    case RefreshCleanup(_) => w.(db := db.(refresh := CleanedRefresh(db.refresh, now)))
    case ResetCleanup(_) => w.(db := db.(reset := CleanedReset(db.reset, now)))
  }

  function WithSession(w: World, user: UserId, issued: TokenId): World {
    w.(db := OpenSession(w.db, user, issued, w.clock, w.config),
       minted := w.minted + {issued}, owner := w.owner[issued := user],
       ancestors := w.ancestors[issued := {}],
       sessions := w.sessions[user := Sessions(w, user) + 1])
  }

  function Run(w: World, es: seq<Event>): World
    decreases |es|
  {
    if es == [] then w else Run(Step(w, es[0]), es[1..])
  }

  predicate Mints(e: Event) { e.Register? || e.Login? || e.Refresh? || e.ForgotPassword? }

  /** The clock never goes back and generated tokens are new. */
  predicate Feasible(w: World, es: seq<Event>)
    decreases |es|
  {
    es != [] ==>
      && w.clock <= es[0].now
      && (Mints(es[0]) ==> es[0].issued !in w.minted)
      && Feasible(Step(w, es[0]), es[1..])
  }

  // ----- the shape of a step -----

  /** The refresh token a step mints, if it mints one. */
  function NewRefresh(w: World, e: Event): Option<TokenId> {
    match e
    case Register(_, user, _, issued) => if user in w.db.users then None else Some(issued)
    case Login(_, user, password, issued) => if CanLogin(w.db, user, password) then Some(issued) else None
    case Refresh(now, h, issued) => if Outcome(w.db, h, now).Rotated? then Some(issued) else None
    case _ => None
  }

  function Without(t: RefreshTable, h: Option<TokenId>): RefreshTable {
    if h.Some? then t - {h.value} else t
  }

  /** Rows may disappear or become revoked; nothing else about them changes. */
  ghost predicate Weakened(t: RefreshTable, t': RefreshTable) {
    forall h :: h in t' ==> h in t && (t'[h] == t[h] || t'[h] == t[h].(revoked := true))
  }

  /** The tokens a newly minted one descends from by rotation. */
  function AncestorsOfNew(w: World, e: Event): set<TokenId> {
    if e.Refresh? then (if e.presented in w.ancestors then w.ancestors[e.presented] else {}) + {e.presented} else {}
  }

  /** Apart from the token it mints, a step only revokes and deletes refresh tokens. */
  lemma StepWeakens(w: World, e: Event)
    requires Feasible(w, [e]) && w.db.refresh.Keys <= w.minted
    ensures Weakened(w.db.refresh, Without(Step(w, e).db.refresh, NewRefresh(w, e)))
  {
    hide Expendable, Superseded, CleanedReset;
    match e
    case Register(_, _, _, _) =>
    case Login(_, _, _, _) =>
    case Refresh(_, _, _) => RefreshWeakens(w, e);
    case Logout(_, _) =>
    case ForgotPassword(_, _, _) =>
    case ResetPassword(_, _, _) =>
    case ChangePassword(_, _, _, _) =>
    case DeleteProfile(_, _) =>
    case Reactivate(_, _) =>
    case RefreshCleanup(_) =>
    case ResetCleanup(_) =>
  }

  lemma RefreshWeakens(w: World, e: Event)
    requires e.Refresh? && e.issued !in w.db.refresh
    ensures Weakened(w.db.refresh, Without(Step(w, e).db.refresh, NewRefresh(w, e)))
  {
  }

  /** A step's history grows by exactly the token it mints, whose rotated-from token was live. */
  lemma StepRecords(w: World, e: Event)
    ensures var w', n := Step(w, e), NewRefresh(w, e);
            && w.minted <= w'.minted
            && (n.None? ==> w'.owner == w.owner && w'.ancestors == w.ancestors)
            && (n.Some? ==>
                  && n.value == e.issued && n.value in w'.minted
                  && n.value in w'.db.refresh && !w'.db.refresh[n.value].revoked
                  && w'.owner == w.owner[n.value := w'.db.refresh[n.value].user]
                  && w'.ancestors == w.ancestors[n.value := AncestorsOfNew(w, e)]
                  && (e.Refresh? ==> Live(w.db.refresh, e.presented)
                                     && w.db.refresh[e.presented].user == w'.db.refresh[n.value].user))
  {
    match e
    case Register(_, _, _, _) =>
    case Login(_, _, _, _) =>
    case Refresh(_, _, _) =>
    case Logout(_, _) =>
    case ForgotPassword(_, _, _) =>
    case ResetPassword(_, _, _) =>
    case ChangePassword(_, _, _, _) =>
    case DeleteProfile(_, _) =>
    case Reactivate(_, _) =>
    case RefreshCleanup(_) =>
    case ResetCleanup(_) =>
  }

  lemma MintedIsNew(w: World, e: Event)
    requires Feasible(w, [e])
    ensures NewRefresh(w, e).Some? ==> NewRefresh(w, e).value !in w.minted
  {
  }

  // ----- invariants -----

  /** Every refresh token has an owner on record, and every recorded token was minted. */
  ghost predicate Recorded(w: World) {
    && (forall h :: h in w.db.refresh ==> h in w.owner && w.owner[h] == w.db.refresh[h].user)
    && w.ancestors.Keys == w.owner.Keys
    && w.owner.Keys <= w.minted && w.db.refresh.Keys <= w.minted
  }

  /** A token and the tokens it descends from belong to one user. */
  ghost predicate Family(w: World) {
    forall h, a :: h in w.ancestors && a in w.ancestors[h] ==>
      h in w.owner && a in w.owner && w.owner[a] == w.owner[h]
  }

  ghost predicate ResetsMinted(w: World) { w.db.reset.Keys <= w.minted }

  /** Only active users hold live refresh tokens. */
  ghost predicate LiveMeansActive(db: Db) {
    forall h :: Live(db.refresh, h) ==> ActiveUser(db, db.refresh[h].user)
  }

  /** One unredeemed reset token per user at most. */
  ghost predicate OneUnredeemed(t: ResetTable) {
    forall g, h :: Unredeemed(t, g) && Unredeemed(t, h) && t[g].user == t[h].user ==> g == h
  }

  function LiveOf(t: RefreshTable, user: UserId): set<TokenId> {
    set h | h in t && Live(t, h) && t[h].user == user
  }

  /** No user has more live refresh tokens than sessions opened since the last revoke-all. */
  ghost predicate Accounted(w: World) {
    forall user: UserId :: |LiveOf(w.db.refresh, user)| <= Sessions(w, user)
  }

  ghost predicate Inv(w: World) {
    && Recorded(w) && Family(w) && ResetsMinted(w)
    && LiveMeansActive(w.db) && OneUnredeemed(w.db.reset) && Accounted(w)
  }

  lemma SubsetSize<T>(a: set<T>, b: set<T>)
    requires a <= b
    ensures |a| <= |b|
  {
    assert b == a + (b - a);
  }

  lemma StepKeepsRecorded(w: World, e: Event)
    requires Recorded(w) && Feasible(w, [e])
    ensures Recorded(Step(w, e))
  {
    hide Step, NewRefresh, Feasible;
    StepWeakens(w, e);
    StepRecords(w, e);
    MintedIsNew(w, e);
    var w', n := Step(w, e), NewRefresh(w, e);
    assert forall h :: h in w'.db.refresh ==> (n.Some? && h == n.value) || h in Without(w'.db.refresh, n);
  }

  lemma StepKeepsFamily(w: World, e: Event)
    requires Recorded(w) && Family(w) && Feasible(w, [e])
    ensures Family(Step(w, e))
  {
    hide Step, NewRefresh, Feasible;
    StepRecords(w, e);
    MintedIsNew(w, e);
  }

  lemma StepKeepsResets(w: World, e: Event)
    requires ResetsMinted(w) && OneUnredeemed(w.db.reset) && Feasible(w, [e])
    ensures ResetsMinted(Step(w, e)) && OneUnredeemed(Step(w, e).db.reset)
  {
    hide RevokeAll, CleanedRefresh;
    StepRecords(w, e);
  }

  lemma StepKeepsActive(w: World, e: Event)
    requires Recorded(w) && LiveMeansActive(w.db) && Feasible(w, [e])
    ensures LiveMeansActive(Step(w, e).db)
  {
    hide Expendable, Superseded, CleanedReset;
  }

  lemma StepKeepsAccounted(w: World, e: Event)
    requires Recorded(w) && Accounted(w) && Feasible(w, [e])
    ensures Accounted(Step(w, e))
  {
    var w' := Step(w, e);
    forall user: UserId ensures |LiveOf(w'.db.refresh, user)| <= Sessions(w', user) {
      LiveChange(w, e, user);
    }
  }

  /** One more session, the same number, or a revoke-all. */
  lemma SessionChange(w: World, e: Event, user: UserId)
    requires Recorded(w) && Feasible(w, [e])
    ensures var w', n := Step(w, e), NewRefresh(w, e);
            var mine := n.Some? && w'.db.refresh[n.value].user == user;
            || (Sessions(w', user) == Sessions(w, user) + 1 && mine)
            || (Sessions(w', user) == Sessions(w, user) && (mine ==> e.Refresh?))
            || LiveOf(w'.db.refresh, user) == {}
  {
  }

  lemma RotatedIsRevoked(w: World, e: Event)
    requires Recorded(w) && Feasible(w, [e]) && e.Refresh? && NewRefresh(w, e).Some?
    ensures Live(w.db.refresh, e.presented) && !Live(Step(w, e).db.refresh, e.presented)
  {
  }

  /** No token but the minted one becomes live, and a rotated one stops being so. */
  lemma LiveTokensAfter(w: World, e: Event, user: UserId)
    requires Recorded(w) && Feasible(w, [e])
    ensures var w', n := Step(w, e), NewRefresh(w, e);
            var before, after := LiveOf(w.db.refresh, user), LiveOf(w'.db.refresh, user);
            if n.Some? && n.value in after then
              if e.Refresh? then e.presented in before && after <= before - {e.presented} + {n.value}
              else after <= before + {n.value}
            else after <= before
  {
    hide Step, NewRefresh, Feasible;
    StepWeakens(w, e);
    StepRecords(w, e);
    MintedIsNew(w, e);
    if e.Refresh? && NewRefresh(w, e).Some? { RotatedIsRevoked(w, e); }
  }

  /** How one step changes the number of live tokens of one user. */
  lemma LiveChange(w: World, e: Event, user: UserId)
    requires Recorded(w) && Feasible(w, [e])
    ensures var w' := Step(w, e);
            var before, after := LiveOf(w.db.refresh, user), LiveOf(w'.db.refresh, user);
            |after| <= |before| + Sessions(w', user) - Sessions(w, user) || after == {}
  {
    var w', n := Step(w, e), NewRefresh(w, e);
    var before, after := LiveOf(w.db.refresh, user), LiveOf(w'.db.refresh, user);
    LiveTokensAfter(w, e, user);
    SessionChange(w, e, user);
    assert n.Some? && n.value in after ==> w'.db.refresh[n.value].user == user;
    hide Step, NewRefresh, Feasible, Recorded, LiveOf, Sessions;
    if n.Some? && n.value in after {
      SubsetSize(after, if e.Refresh? then before - {e.presented} + {n.value} else before + {n.value});
    } else {
      SubsetSize(after, before);
    }
  }

  lemma StepKeepsInv(w: World, e: Event)
    requires Inv(w) && Feasible(w, [e])
    ensures Inv(Step(w, e))
  {
    StepKeepsRecorded(w, e);
    StepKeepsFamily(w, e);
    StepKeepsResets(w, e);
    StepKeepsActive(w, e);
    StepKeepsAccounted(w, e);
  }

  lemma {:induction false} RunKeepsInv(w: World, es: seq<Event>)
    requires Inv(w) && Feasible(w, es)
    ensures Inv(Run(w, es))
    decreases |es|
  {
    if es == [] {
    } else {
      StepKeepsInv(w, es[0]);
      RunKeepsInv(Step(w, es[0]), es[1..]);
    }
  }

  function Empty(now: Instant, config: Config): World {
    World(Db(map[], map[], map[]), config, now, {}, map[], map[], map[])
  }

  /**
   Accounting, after any run from empty tables: live refresh tokens never outnumber the sessions
   opened since the user's last revoke-all, an inactive user has none, and a user has at most one
   unredeemed reset token.
   */
  lemma TokenAccounting(now: Instant, config: Config, es: seq<Event>, user: UserId)
    requires Feasible(Empty(now, config), es)
    ensures var w := Run(Empty(now, config), es);
            && |LiveOf(w.db.refresh, user)| <= Sessions(w, user)
            && (!ActiveUser(w.db, user) ==> LiveOf(w.db.refresh, user) == {})
            && forall g, h :: (Unredeemed(w.db.reset, g) && Unredeemed(w.db.reset, h)
                               && w.db.reset[g].user == w.db.reset[h].user == user) ==> g == h
  {
    var e := Empty(now, config);
    assert forall u: UserId :: LiveOf(e.db.refresh, u) == {};
    RunKeepsInv(e, es);
  }

  // ----- replay -----

  /** `d` came from `x` by one or more rotations. */
  predicate Descendant(w: World, d: TokenId, x: TokenId) {
    d in w.ancestors && x in w.ancestors[d]
  }

  /** Neither `x` nor anything rotated from it can be used. */
  ghost predicate LineageDead(w: World, x: TokenId) {
    && x in w.minted
    && forall d :: d == x || Descendant(w, d, x) ==> !Live(w.db.refresh, d)
  }

  lemma ReplayKills(w: World, x: TokenId, e: Event)
    requires Inv(w) && Feasible(w, [e]) && x in w.db.refresh && w.db.refresh[x].revoked
    requires e.Refresh? && e.presented == x
    ensures LineageDead(Step(w, e), x)
  {
  }

  /** A rotation starts from a live token, so it cannot start in a dead lineage. */
  lemma StepKeepsDead(w: World, e: Event, x: TokenId)
    requires Recorded(w) && Feasible(w, [e]) && LineageDead(w, x)
    ensures LineageDead(Step(w, e), x)
  {
    hide Step, NewRefresh, Feasible;
    var w', n := Step(w, e), NewRefresh(w, e);
    StepWeakens(w, e);
    StepRecords(w, e);
    MintedIsNew(w, e);
    forall d | d == x || Descendant(w', d, x) ensures !Live(w'.db.refresh, d) {
      if n != Some(d) {
        assert Live(w'.db.refresh, d) ==> d in Without(w'.db.refresh, n);
        assert Live(w'.db.refresh, d) ==> Live(w.db.refresh, d);
        assert Descendant(w', d, x) ==> Descendant(w, d, x);
      }
    }
  }

  lemma {:induction false} LineageStaysDead(w: World, es: seq<Event>, x: TokenId)
    requires Recorded(w) && Feasible(w, es) && LineageDead(w, x)
    ensures LineageDead(Run(w, es), x)
    decreases |es|
  {
    if es == [] {
    } else {
      StepKeepsDead(w, es[0], x);
      StepKeepsRecorded(w, es[0]);
      LineageStaysDead(Step(w, es[0]), es[1..], x);
    }
  }

  /**
   Once an already revoked token is presented, nothing descended from it by rotation, before or
   after, can ever be rotated again.
   */
  lemma ReplayKillsLineage(w: World, x: TokenId, e: Event, es: seq<Event>, d: TokenId, now: Instant)
    requires Inv(w) && x in w.db.refresh && w.db.refresh[x].revoked
    requires e.Refresh? && e.presented == x && Feasible(w, [e]) && Feasible(Step(w, e), es)
    ensures var v := Run(Step(w, e), es);
            d == x || Descendant(v, d, x) ==> Outcome(v.db, d, now) !in {Rotated, Claimed}
  {
    ReplayKills(w, x, e);
    StepKeepsInv(w, e);
    LineageStaysDead(Step(w, e), es, x);
  }

  /** The row `x` with this expiry is there, and revoked. */
  predicate RevokedRow(w: World, x: TokenId, expiresAt: Instant) {
    x in w.db.refresh && w.db.refresh[x].revoked && w.db.refresh[x].expiresAt == expiresAt
  }

  /** A revoked row stays at least until it expires. */
  lemma {:induction false} RowStays(w: World, es: seq<Event>, x: TokenId, expiresAt: Instant)
    requires Recorded(w) && Feasible(w, es) && RevokedRow(w, x, expiresAt) && Run(w, es).clock <= expiresAt
    ensures RevokedRow(Run(w, es), x, expiresAt)
    decreases |es|
  {
    if es == [] {
    } else {
      ClockRises(Step(w, es[0]), es[1..]);
      StepKeepsRow(w, es[0], x, expiresAt);
      StepKeepsRecorded(w, es[0]);
      RowStays(Step(w, es[0]), es[1..], x, expiresAt);
    }
  }

  lemma StepKeepsUnexpired(w: World, e: Event, x: TokenId)
    requires x in w.db.refresh && e.now <= w.db.refresh[x].expiresAt
    ensures x in Step(w, e).db.refresh
  {
    hide RefreshExpiry, CleanedReset, Superseded, NewerExpired;
    if e.Refresh? { RefreshKeepsRows(w.db, e.presented, e.issued, e.now, w.config, x); }
    hide RefreshDb, Outcome;
  }

  lemma RefreshKeepsRows(db: Db, h: TokenId, issued: TokenId, now: Instant, config: Config, x: TokenId)
    requires x in db.refresh
    ensures x in RefreshDb(db, h, issued, now, config).refresh
  {
  }

  lemma StepKeepsRow(w: World, e: Event, x: TokenId, expiresAt: Instant)
    requires Recorded(w) && Feasible(w, [e]) && RevokedRow(w, x, expiresAt) && e.now <= expiresAt
    ensures RevokedRow(Step(w, e), x, expiresAt)
  {
    StepKeepsUnexpired(w, e, x);
    StepWeakens(w, e);
    MintedIsNew(w, e);
    hide Step, NewRefresh, Feasible;
    assert x in Without(Step(w, e).db.refresh, NewRefresh(w, e));
  }

  lemma {:induction false} ClockRises(w: World, es: seq<Event>)
    requires Feasible(w, es)
    ensures w.clock <= Run(w, es).clock
    decreases |es|
  {
    if es == [] {
    } else {
      StepTime(w, es[0]);
      hide Step;
      ClockRises(Step(w, es[0]), es[1..]);
    }
  }

  lemma StepTime(w: World, e: Event)
    ensures Step(w, e).clock == e.now
  {
  }

  /**
   A rotated token is recognised as a replay whenever it is presented again before its expiry,
   whatever happened in between: no cleanup deletes it early, nothing un-revokes it.
   */
  lemma ReplayIsDetected(w: World, rotation: Event, es: seq<Event>, now: Instant)
    requires Inv(w) && rotation.Refresh? && Feasible(w, [rotation])
    requires Outcome(w.db, rotation.presented, rotation.now) == Rotated
    requires Feasible(Step(w, rotation), es) && Run(Step(w, rotation), es).clock <= now
    requires now <= w.db.refresh[rotation.presented].expiresAt
    ensures Outcome(Run(Step(w, rotation), es).db, rotation.presented, now) == Replayed
  {
    StepKeepsRecorded(w, rotation);
    RowStays(Step(w, rotation), es, rotation.presented, w.db.refresh[rotation.presented].expiresAt);
  }

  // ----- logout -----

  /** A token that is on record nowhere as live stays so: no identifier is minted twice. */
  lemma {:induction false} DeadForever(w: World, es: seq<Event>, x: TokenId)
    requires Recorded(w) && Feasible(w, es) && x in w.minted && !Live(w.db.refresh, x)
    ensures !Live(Run(w, es).db.refresh, x)
    decreases |es|
  {
    if es == [] {
    } else {
      StepKeepsUnlive(w, es[0], x);
      StepKeepsRecorded(w, es[0]);
      DeadForever(Step(w, es[0]), es[1..], x);
    }
  }

  lemma StepKeepsUnlive(w: World, e: Event, x: TokenId)
    requires Recorded(w) && Feasible(w, [e]) && x in w.minted && !Live(w.db.refresh, x)
    ensures x in Step(w, e).minted && !Live(Step(w, e).db.refresh, x)
  {
    hide Step, NewRefresh, Feasible;
    StepWeakens(w, e);
    StepRecords(w, e);
    MintedIsNew(w, e);
    assert x in Step(w, e).db.refresh ==> x in Without(Step(w, e).db.refresh, NewRefresh(w, e));
  }

  /**
   After a logout no run ever accepts the token again, and until its expiry presenting it is
   answered as a replay.
   */
  lemma LogoutIsFinal(w: World, e: Event, es: seq<Event>, now: Instant)
    requires Inv(w) && e.Logout? && e.presented in w.db.refresh
    requires Feasible(w, [e]) && Feasible(Step(w, e), es)
    ensures var v := Run(Step(w, e), es);
            && Outcome(v.db, e.presented, now) !in {Rotated, Claimed}
            && (v.clock <= now <= w.db.refresh[e.presented].expiresAt ==> Outcome(v.db, e.presented, now) == Replayed)
  {
    var w' := Step(w, e);
    assert RevokedRow(w', e.presented, w.db.refresh[e.presented].expiresAt);
    StepKeepsRecorded(w, e);
    DeadForever(w', es, e.presented);
    if Run(w', es).clock <= now <= w.db.refresh[e.presented].expiresAt {
      RowStays(w', es, e.presented, w.db.refresh[e.presented].expiresAt);
    }
  }

  // ----- accounts and the history behind them -----

  /** A new account can log in with its password alone, and starts with one usable token. */
  lemma RegistrationWorks(w: World, e: Event, password: string)
    requires e.Register? && 0 < w.config.refreshDays
    ensures var v := Step(w, e);
            if e.user in w.db.users then v.db == w.db
            else
              && (CanLogin(v.db, e.user, password) <==> password == e.password)
              && v.db.users - {e.user} == w.db.users && v.db.reset == w.db.reset
              && v.db.refresh - {e.issued} == w.db.refresh - {e.issued}
              && IsNewSession(v.db.refresh[e.issued], e.user, e.now, w.config)
              && Outcome(v.db, e.issued, e.now) == Rotated
  {
    assert w.db.users - {e.user} == w.db.users || e.user in w.db.users;
  }

  /** Reactivation undoes a soft delete but for the sessions, which stay revoked. */
  lemma ReactivationWorks(w: World, user: UserId, deletedAt: Instant, now: Instant, password: string)
    requires ActiveUser(w.db, user)
    ensures var v := Step(Step(w, DeleteProfile(deletedAt, user)), Reactivate(now, user));
            v.db.users == w.db.users && v.db.reset == w.db.reset && v.db.refresh == RevokeAll(w.db.refresh, user)
  {
    var v := Step(Step(w, DeleteProfile(deletedAt, user)), Reactivate(now, user));
    assert v.db.users[user] == w.db.users[user];
  }

  /** The recorded descent is rotation: from the rotated token, and from what that descends from. */
  lemma DescentIsRotation(w: World, e: Event, d: TokenId, x: TokenId)
    requires Recorded(w) && Feasible(w, [e])
    ensures Descendant(Step(w, e), d, x) <==>
              if e.Refresh? && Outcome(w.db, e.presented, e.now) == Rotated && d == e.issued
              then x == e.presented || Descendant(w, e.presented, x)
              else Descendant(w, d, x)
  {
  }

  /** The recorded sessions are the successful registrations and logins since the last revoke-all. */
  lemma SessionsAreOpened(w: World, e: Event, user: UserId)
    ensures Sessions(Step(w, e), user) ==
      match e
      case Register(_, u, _, _) => Sessions(w, user) + if u == user && u !in w.db.users then 1 else 0
      case Login(_, u, p, _) =>
        Sessions(w, user)
        + if u == user && u in w.db.users && w.db.users[u].active && w.db.users[u].password == p then 1 else 0
      case Refresh(_, h, _) =>
        if h in w.db.refresh && w.db.refresh[h].revoked && w.db.refresh[h].user == user then 0 else Sessions(w, user)
      case ResetPassword(now, h, _) =>
        if (&& h in w.db.reset && w.db.reset[h].usedAt.None? && now < w.db.reset[h].expiresAt
            && w.db.reset[h].user == user && user in w.db.users && w.db.users[user].active) then 0
        else Sessions(w, user)
      case ChangePassword(_, u, p, _) =>
        if u == user && u in w.db.users && w.db.users[u].password == p then 0 else Sessions(w, user)
      case DeleteProfile(_, u) => if u == user && u in w.db.users then 0 else Sessions(w, user)
      case _ => Sessions(w, user)
  {
  }

  // ----- reset tokens -----

  /** A reset token that can never be redeemed again. */
  predicate Spent(w: World, h: TokenId) { h in w.minted && !Unredeemed(w.db.reset, h) }

  lemma SpentStep(w: World, e: Event, h: TokenId)
    requires ResetsMinted(w) && Feasible(w, [e]) && Spent(w, h)
    ensures Spent(Step(w, e), h)
  {
    StepRecords(w, e);
  }

  lemma {:induction false} SpentForever(w: World, es: seq<Event>, h: TokenId)
    requires ResetsMinted(w) && OneUnredeemed(w.db.reset) && Feasible(w, es) && Spent(w, h)
    ensures Spent(Run(w, es), h)
    decreases |es|
  {
    if es == [] {
    } else {
      SpentStep(w, es[0], h);
      StepKeepsResets(w, es[0]);
      SpentForever(Step(w, es[0]), es[1..], h);
    }
  }

  /** A reset token is redeemed at most once in any run. */
  lemma RedeemedOnce(w: World, first: Event, es: seq<Event>, now: Instant)
    requires Inv(w) && first.ResetPassword? && Feasible(w, [first]) && Feasible(Step(w, first), es)
    requires Redeemable(w.db, first.presented, first.now)
    ensures !Redeemable(Run(Step(w, first), es).db, first.presented, now)
    ensures LiveOf(Step(w, first).db.refresh, w.db.reset[first.presented].user) == {}
  {
    StepKeepsInv(w, first);
    SpentForever(Step(w, first), es, first.presented);
  }

  /** A new reset link supersedes every earlier one of the same user for good. */
  lemma NewLinkSupersedes(w: World, e: Event, es: seq<Event>, h: TokenId, now: Instant)
    requires Inv(w) && e.ForgotPassword? && Feasible(w, [e]) && Feasible(Step(w, e), es)
    requires ActiveUser(w.db, e.user) && h in w.db.reset && w.db.reset[h].user == e.user
    ensures !Redeemable(Run(Step(w, e), es).db, h, now)
  {
    StepKeepsInv(w, e);
    SpentForever(Step(w, e), es, h);
  }

  // ----- the cleanup -----

  /** The oldest token of a nonempty set. */
  lemma {:induction false} Oldest(t: RefreshTable, s: set<TokenId>) returns (m: TokenId)
    requires s != {} && s <= t.Keys
    ensures m in s && forall h :: h in s && h != m ==> Newer(t, h, m)
  {
    m :| m in s;
    if s == {m} {
    } else {
      var rest := s - {m};
      assert exists h :: h in rest by {
        assert rest != {};
      }
      var m2 := Oldest(t, rest);
      assert forall h :: h in s ==> h == m || h in rest;
      if Newer(t, m, m2) { m := m2; }
    }
  }

  function KeptExpired(t: RefreshTable, user: UserId, now: Instant): set<TokenId> {
    set h | h in CleanedRefresh(t, now) && t[h].user == user && Expired(t, h, now)
  }

  /**
   The daily sweep: unexpired rows are untouched, each user keeps at most ten expired ones, none
   older than the grace period, and never an older one instead of a newer one.
   */
  lemma CleanupKeeps(t: RefreshTable, user: UserId, now: Instant)
    ensures forall h :: h in t && now <= t[h].expiresAt ==> h in CleanedRefresh(t, now)
    ensures forall h :: h in CleanedRefresh(t, now) ==> h in t && CleanedRefresh(t, now)[h] == t[h]
    ensures forall h :: h in KeptExpired(t, user, now) ==> now - GRACE <= t[h].expiresAt
    ensures |KeptExpired(t, user, now)| <= KEEP_PER_USER
    ensures forall g, h :: h in KeptExpired(t, user, now) && Expired(t, g, now) && t[g].user == user
                           && Newer(t, g, h) && now - GRACE <= t[g].expiresAt
                           ==> g in KeptExpired(t, user, now)
  {
    var kept := KeptExpired(t, user, now);
    if kept != {} {
      var m := Oldest(t, kept);
      assert kept - {m} <= NewerExpired(t, m, now);
      SubsetSize(kept - {m}, NewerExpired(t, m, now));
    }
    forall g, h | h in kept && Expired(t, g, now) && t[g].user == user && Newer(t, g, h)
                  && now - GRACE <= t[g].expiresAt
      ensures g in kept
    {
      SubsetSize(NewerExpired(t, g, now), NewerExpired(t, h, now));
    }
  }
}
