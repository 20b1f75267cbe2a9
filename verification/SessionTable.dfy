/**
 The serialized specification: each request is one atomic step on a plain table of sessions.  There is no reverse
 index, no stale entry and no key text here; the service is proved to refine this table in module AuthService.
 */
module SessionTable {
  import opened Prelude
  import opened Uuid
  import opened Accounts
  import opened Keyspace
  import Password
  import Roles

  const BRUTE_LIMIT := 5
  const BRUTE_TTL: Time := 15 * 60 * 1000
  const LEEWAY: Time := 30 * 1000

  datatype Config = Config(refreshTtl: Time, accessTtl: Time,
                           verify: (string, string) -> Result<bool, Password.VerifyError>)

  /** Redis takes whole seconds for the expiry of the index set. */
  predicate ValidConfig(c: Config) {
    c.refreshTtl > 0 && c.refreshTtl % 1000 == 0
  }

  /** An access token is its claims: only `Generate` signs. */
  datatype Claims = Claims(subject: Uuid, tenant: Uuid, roles: seq<string>, issued: Time, expires: Time)

  datatype TokenPair = TokenPair(access: Claims, refresh: string, expiresIn: nat)

  datatype Session = Session(owner: Uuid, tenant: Uuid, expires: Time)

  /** The counter of one (tenant, user name): a fixed window that opens at its first failure. */
  datatype Window = Window(failures: nat, started: Time)

  datatype Error = AccountLocked | InvalidCredentials | BadHash | InvalidRefreshToken | NotFound | Conflict | Forbidden
                 | PasswordPolicy | Internal

  datatype Reply = Pair(pair: TokenPair) | Done | Failed(error: Error)

  datatype Table = Table(now: Time, users: Users, sessions: map<string, Session>, windows: map<Door, Window>,
                         signed: set<Claims>, drawn: set<string>)

  function Seconds(t: Time): Time { t / 1000 * 1000 }

  /** `token.Service.Generate`: dates in whole seconds. */
  function Generate(c: Config, user: User, now: Time): Claims {
    Claims(user.id, user.tenant, user.roles, Seconds(now), Seconds(now + c.accessTtl))
  }

  /** `token.Service.Parse` of a signed token: exp is checked with 30 seconds of leeway (RFC 7519, section 4.1.4). */
  predicate Accepted(claims: Claims, now: Time) {
    now < claims.expires + LEEWAY
  }

  // ---- the requests ----

  function Failures(s: Table, door: Door): nat {
    if door in s.windows then s.windows[door].failures else 0
  }

  function CountFailure(s: Table, door: Door): Table {
    s.(windows := s.windows[door := if door in s.windows then s.windows[door].(failures := s.windows[door].failures + 1)
                                    else Window(1, s.now)])
  }

  function Issue(c: Config, s: Table, user: User, jti: string): (Table, Reply) {
    var claims := Generate(c, user, s.now);
    (s.(sessions := s.sessions[jti := Session(user.id, user.tenant, s.now + c.refreshTtl)],
        signed := s.signed + {claims}, drawn := s.drawn + {jti}),
     Pair(TokenPair(claims, jti, c.accessTtl / 1000)))
  }

  ghost function Login(c: Config, s: Table, tenant: Uuid, username: string, plain: string, jti: string): (Table, Reply)
  {
    var door := (tenant, username);
    if Failures(s, door) >= BRUTE_LIMIT then (s, Failed(AccountLocked))
    else match FindByName(s.users, tenant, username)
      case None => (CountFailure(s, door), Failed(InvalidCredentials))
      case Some(user) =>
        match c.verify(plain, user.hash)
        case Err(_) => (s, Failed(BadHash))
        case Ok(false) => (CountFailure(s, door), Failed(InvalidCredentials))
        case Ok(true) => Issue(c, s.(windows := s.windows - {door}), user, jti)
  }

  function Refresh(c: Config, s: Table, token: string, jti: string): (Table, Reply) {
    if token !in s.sessions then (s, Failed(InvalidRefreshToken))
    else
      var session := s.sessions[token];
      var spent := s.(sessions := s.sessions - {token});
      match FindById(s.users, session.owner)
      case None => (spent, Failed(InvalidRefreshToken))
      case Some(user) =>
        if user.tenant != session.tenant then (spent, Failed(InvalidRefreshToken)) else Issue(c, spent, user, jti)
  }

  function Logout(s: Table, token: string): (Table, Reply) {
    (s.(sessions := s.sessions - {token}), Done)
  }

  /** Exactly the sessions of one user go. */
  function Revoke(s: Table, id: Uuid): Table {
    s.(sessions := map t | t in s.sessions && s.sessions[t].owner != id :: s.sessions[t])
  }

  function Delete(s: Table, id: Uuid): (Table, Reply) {
    if Live(s.users, id) then (Revoke(s.(users := SoftDelete(s.users, id)), id), Done) else (s, Failed(NotFound))
  }

  function Unexpired(sessions: map<string, Session>, now: Time): map<string, Session> {
    map t | t in sessions && now < sessions[t].expires :: sessions[t]
  }

  function StillOpen(windows: map<Door, Window>, now: Time): map<Door, Window> {
    map k | k in windows && now < windows[k].started + BRUTE_TTL :: windows[k]
  }

  function Tick(s: Table, d: Time): Table {
    var now := s.now + d;
    s.(now := now, sessions := Unexpired(s.sessions, now), windows := StillOpen(s.windows, now))
  }

  /** The other statements on user rows; they touch nothing else. */
  datatype Statement =
    | Create(id: Uuid, row: Account)
    | Update(id: Uuid, username: Option<string>, email: Option<string>)
    | Rehash(id: Uuid, hash: string)
    | Assign(id: Uuid, roles: set<string>)

  ghost function Apply(users: Users, q: Statement): Users {
    match q
    case Create(id, row) => Insert(users, id, row)
    case Update(id, username, email) => UpdateProfile(users, id, username, email)
    case Rehash(id, hash) => SetHash(users, id, hash)
    case Assign(id, roles) => AssignRoles(users, id, roles)
  }

  // ---- runs ----

  datatype Action =
    | DoLogin(tenant: Uuid, username: string, plain: string, jti: string)
    | DoRefresh(token: string, jti: string)
    | DoLogout(token: string)
    | DoDelete(id: Uuid)
    | DoStatement(q: Statement)
    | DoTick(d: Time)

  ghost function Step(c: Config, s: Table, a: Action): (Table, Reply) {
    match a
    case DoLogin(tenant, username, plain, jti) => Login(c, s, tenant, username, plain, jti)
    case DoRefresh(token, jti) => Refresh(c, s, token, jti)
    case DoLogout(token) => Logout(s, token)
    case DoDelete(id) => Delete(s, id)
    case DoStatement(q) => (s.(users := Apply(s.users, q)), Done)
    case DoTick(d) => (Tick(s, d), Done)
  }

  ghost function After(c: Config, s: Table, a: Action): Table { Step(c, s, a).0 }

  ghost function ReplyTo(c: Config, s: Table, a: Action): Reply { Step(c, s, a).1 }

  /** Drawn tokens and user ids are new; rows are inserted live and without roles. */
  predicate Enabled(s: Table, a: Action) {
    match a
    case DoLogin(_, _, _, jti) => jti !in s.drawn
    case DoRefresh(_, jti) => jti !in s.drawn
    case DoStatement(q) => StatementOk(s.users, q)
    case _ => true
  }

  predicate StatementOk(users: Users, q: Statement) {
    match q
    case Create(id, row) => id !in users && !row.deleted && row.roles == {}
    case Assign(_, roles) => forall r :: r in roles ==> Roles.Clean(r)
    case _ => true
  }

  ghost predicate Runs(c: Config, s: Table, run: seq<Action>)
    decreases |run|
  {
    run == [] || (Enabled(s, run[0]) && Runs(c, After(c, s, run[0]), run[1..]))
  }

  ghost function Exec(c: Config, s: Table, run: seq<Action>): Table
    decreases |run|
  {
    if run == [] then s else Exec(c, After(c, s, run[0]), run[1..])
  }

  lemma {:induction false} ClockMonotone(c: Config, s: Table, run: seq<Action>)
    ensures s.now <= Exec(c, s, run).now
    decreases |run|
  {
    if run != [] { ClockMonotone(c, After(c, s, run[0]), run[1..]); }
  }

  const EMPTY := Table(0, map[], map[], map[], {}, {})

  // ---- what every step keeps ----

  ghost predicate Inv(c: Config, s: Table) {
    && UniqueIndexes(s.users)
    && CleanRoles(s.users)
    && (forall t :: t in s.sessions ==> SessionOk(c, s, t))
    && (forall k :: k in s.windows ==> WindowOk(s, k))
    && (forall a :: a in s.signed ==> a.subject in s.users && s.users[a.subject].tenant == a.tenant)
  }

  /** A session is unexpired, of a live user, and carries that user's tenant. */
  predicate SessionOk(c: Config, s: Table, t: string)
    requires t in s.sessions
  {
    var session := s.sessions[t];
    && t in s.drawn
    && Live(s.users, session.owner) && s.users[session.owner].tenant == session.tenant
    && s.now < session.expires <= s.now + c.refreshTtl
  }

  predicate WindowOk(s: Table, k: Door)
    requires k in s.windows
  {
    1 <= s.windows[k].failures <= BRUTE_LIMIT && s.windows[k].started <= s.now < s.windows[k].started + BRUTE_TTL
  }

  lemma EmptyInv(c: Config)
    ensures Inv(c, EMPTY)
  {
  }

  lemma FoundByName(s: Table, tenant: Uuid, username: string)
    ensures var u := FindByName(s.users, tenant, username);
            u.Some? ==> Named(s.users, u.value.id, tenant, username) && u.value == RowOf(s.users, u.value.id)
  {
  }

  lemma IssueInv(c: Config, s: Table, user: User, jti: string)
    requires ValidConfig(c) && Inv(c, s)
    requires Live(s.users, user.id) && user == RowOf(s.users, user.id)
    ensures Inv(c, Issue(c, s, user, jti).0)
  {
  }

  lemma LoginInv(c: Config, s: Table, tenant: Uuid, username: string, plain: string, jti: string)
    requires ValidConfig(c) && Inv(c, s)
    ensures Inv(c, Login(c, s, tenant, username, plain, jti).0)
  {
    FoundByName(s, tenant, username);
    var u := FindByName(s.users, tenant, username);
    var door := (tenant, username);
    if Failures(s, door) < BRUTE_LIMIT {
      if u.Some? && c.verify(plain, u.value.hash) == Ok(true) {
        IssueInv(c, s.(windows := s.windows - {door}), u.value, jti);
      } else {
        assert Inv(c, CountFailure(s, door));
      }
    }
  }

  lemma RowsInv(c: Config, s: Table, users: Users)
    requires Inv(c, s)
    requires Evolves(s.users, users) && UniqueIndexes(users) && CleanRoles(users)
    requires forall u :: Live(s.users, u) ==> Live(users, u)
    ensures Inv(c, s.(users := users))
  {
  }

  const NO_ACCOUNT := Account([0, 0, 0, 0, 0, 0, 0, 0, 0, 0, 0, 0, 0, 0, 0, 0], "", None, "", {}, false)

  lemma StatementKeepsRows(users: Users, q: Statement)
    requires UniqueIndexes(users) && CleanRoles(users)
    requires StatementOk(users, q)
    ensures var after := Apply(users, q);
            && Evolves(users, after) && UniqueIndexes(after) && CleanRoles(after)
            && forall u :: Live(users, u) ==> Live(after, u)
  {
    match q
    case Create(id, row) => StatementsEvolve(users, id, None, None, "", {}, row);
    case Update(id, username, email) => StatementsEvolve(users, id, username, email, "", {}, NO_ACCOUNT);
    case Rehash(id, hash) => StatementsEvolve(users, id, None, None, hash, {}, NO_ACCOUNT);
    case Assign(id, roles) => StatementsEvolve(users, id, None, None, "", roles, NO_ACCOUNT);
  }

  lemma StatementInv(c: Config, s: Table, q: Statement)
    requires Inv(c, s) && Enabled(s, DoStatement(q))
    ensures Inv(c, s.(users := Apply(s.users, q)))
  {
    StatementKeepsRows(s.users, q);
    RowsInv(c, s, Apply(s.users, q));
  }

  lemma DeleteInv(c: Config, s: Table, id: Uuid)
    requires Inv(c, s)
    ensures Inv(c, Delete(s, id).0)
  {
    StatementsEvolve(s.users, id, None, None, "", {}, NO_ACCOUNT);
    var after := Delete(s, id).0;
    forall t | t in after.sessions ensures SessionOk(c, after, t) {
      assert SessionOk(c, s, t);
    }
  }

  lemma TickInv(c: Config, s: Table, d: Time)
    requires Inv(c, s)
    ensures Inv(c, Tick(s, d))
  {
    forall t | t in Tick(s, d).sessions ensures SessionOk(c, Tick(s, d), t) { assert SessionOk(c, s, t); }
    forall k | k in Tick(s, d).windows ensures WindowOk(Tick(s, d), k) { assert WindowOk(s, k); }
  }

  /** Every request keeps the invariant. */
  lemma StepInv(c: Config, s: Table, a: Action)
    requires ValidConfig(c) && Inv(c, s) && Enabled(s, a)
    ensures Inv(c, After(c, s, a))
  {
    match a
    case DoLogin(tenant, username, plain, jti) => LoginInv(c, s, tenant, username, plain, jti);
    case DoRefresh(token, jti) =>
      if token in s.sessions {
        var spent := s.(sessions := s.sessions - {token});
        var u := FindById(s.users, s.sessions[token].owner);
        if u.Some? && u.value.tenant == s.sessions[token].tenant { IssueInv(c, spent, u.value, jti); }
      }
    case DoLogout(token) =>
    case DoDelete(id) => DeleteInv(c, s, id);
    case DoStatement(q) => StatementInv(c, s, q);
    case DoTick(d) => TickInv(c, s, d);
  }

  /** Every reachable table satisfies the invariant. */
  lemma {:induction false} RunInv(c: Config, s: Table, run: seq<Action>)
    requires ValidConfig(c) && Inv(c, s) && Runs(c, s, run)
    ensures Inv(c, Exec(c, s, run))
    decreases |run|
  {
    if run != [] {
      StepInv(c, s, run[0]);
      RunInv(c, After(c, s, run[0]), run[1..]);
    }
  }

  /** Refresh never meets a user whose tenant differs from the session's: that branch of the code is dead. */
  lemma TenantNeverDiffers(c: Config, s: Table, run: seq<Action>, token: string)
    requires ValidConfig(c) && Inv(c, s) && Runs(c, s, run)
    requires token in Exec(c, s, run).sessions
    ensures var end := Exec(c, s, run);
            var u := FindById(end.users, end.sessions[token].owner);
            u.Some? && u.value.tenant == end.sessions[token].tenant
  {
    RunInv(c, s, run);
    assert SessionOk(c, Exec(c, s, run), token);
  }
}
