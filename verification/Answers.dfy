/**
 What the requests of the session table answer and leave behind, said outright: these are the promises a caller of
 the service relies on.
 */
module Answers {
  import opened Prelude
  import opened Uuid
  import opened Accounts
  import opened Keyspace
  import opened SessionTable
  import Order
  import Password
  import Refinement
  import I = Interleaved

  // ---- access tokens ----

  /**
   An access token is good from the moment it is returned for the whole access lifetime, and never past 30 seconds
   more; and its dates span at least the seconds the reply announces.
   */
  lemma IssuedLifetime(c: Config, s: Table, a: Action, later: Time)
    requires ReplyTo(c, s, a).Pair?
    ensures var pair := ReplyTo(c, s, a).pair;
            && (s.now <= later < s.now + c.accessTtl ==> later < pair.access.expires + 30_000)
            && (later < pair.access.expires + 30_000 ==> later < s.now + c.accessTtl + 30_000)
            && (Accepted(pair.access, later) <==> later < pair.access.expires + 30_000)
            && pair.access.issued <= s.now < pair.access.issued + 1000
            && pair.access.expires >= pair.access.issued + pair.expiresIn * 1000
            && pair.expiresIn * 1000 <= c.accessTtl < pair.expiresIn * 1000 + 1000
  {
  }

  /** The same of a pair returned in the middle of any interleaving. */
  lemma InterleavedLifetime(c: Config, st: Refinement.Stores, pc: I.Pc, draw: string, later: Time)
    requires I.Answer(c, st, pc, draw).Pair?
    ensures var pair := I.Answer(c, st, pc, draw).pair;
            && (st.now <= later < st.now + c.accessTtl ==> later < pair.access.expires + 30_000)
            && (later < pair.access.expires + 30_000 ==> later < st.now + c.accessTtl + 30_000)
            && pair.access.expires >= pair.access.issued + pair.expiresIn * 1000
            && pair.refresh == draw
  {
  }

  // ---- login ----

  /** Five failures lock the door; an unknown name is a failure; a known one is decided by its hash alone. */
  lemma LoginAnswer(c: Config, s: Table, tenant: Uuid, username: string, plain: string, jti: string, id: Uuid)
    requires UniqueIndexes(s.users)
    ensures var r := Login(c, s, tenant, username, plain, jti).1;
            var door := (tenant, username);
            && (door in s.windows && s.windows[door].failures >= 5 ==> r == Failed(AccountLocked))
            && (Failures(s, door) < 5 && (forall u :: !Named(s.users, u, tenant, username)) ==>
                  r == Failed(InvalidCredentials))
            && (Failures(s, door) < 5 && Named(s.users, id, tenant, username) ==>
                  match c.verify(plain, s.users[id].hash)
                  case Ok(true) => r.Pair? && r.pair.access.subject == id && r.pair.access.tenant == tenant
                                   && r.pair.access.roles == Order.Sorted(s.users[id].roles)
                  case Ok(false) => r == Failed(InvalidCredentials)
                  case Err(_) => r == Failed(BadHash))
  {
    if Named(s.users, id, tenant, username) {
      FindByNameUnique(s.users, tenant, username, id);
    }
  }

  /** A pair clears the door's failures and opens one session; a failure counts once; anything else changes nothing. */
  lemma LoginLeaves(c: Config, s: Table, tenant: Uuid, username: string, plain: string, jti: string)
    ensures var (next, r) := Login(c, s, tenant, username, plain, jti);
            var door := (tenant, username);
            match r
            case Pair(p) =>
              && p.refresh == jti
              && next.sessions == s.sessions[jti := Session(p.access.subject, tenant, s.now + c.refreshTtl)]
              && next.windows == s.windows - {door} && next.users == s.users && next.now == s.now
            case Done => false
            case Failed(e) =>
              if e != InvalidCredentials then next == s
              else
                var w := if door in s.windows then s.windows[door] else Window(0, s.now);
                next == s.(windows := s.windows[door := Window(w.failures + 1, w.started)])
  {
    FoundByName(s, tenant, username);
  }

  // ---- refresh and logout ----

  /** A refresh answers a pair exactly for a session, with what the database holds now, and replaces that session. */
  lemma RefreshAnswer(c: Config, s: Table, token: string, jti: string)
    requires Inv(c, s)
    ensures var (next, r) := Refresh(c, s, token, jti);
            if token !in s.sessions then next == s && r == Failed(InvalidRefreshToken)
            else
              var was := s.sessions[token];
              && r.Pair? && r.pair.refresh == jti
              && r.pair.access.subject == was.owner && r.pair.access.tenant == was.tenant
              && r.pair.access.roles == Order.Sorted(s.users[was.owner].roles)
              && next.sessions == (s.sessions - {token})[jti := Session(was.owner, was.tenant, s.now + c.refreshTtl)]
              && next.windows == s.windows && next.users == s.users && next.now == s.now
  {
    assert token in s.sessions ==> SessionOk(c, s, token);
  }

  // ---- the life of a session ----

  /** The action presents the token or deletes its owner. */
  predicate Touches(a: Action, token: string, owner: Uuid) {
    || (a.DoRefresh? && a.token == token)
    || (a.DoLogout? && a.token == token)
    || (a.DoDelete? && a.id == owner)
  }

  lemma SessionStep(c: Config, s: Table, a: Action, token: string)
    requires ValidConfig(c) && Inv(c, s) && Enabled(s, a)
    requires token in s.sessions && !Touches(a, token, s.sessions[token].owner)
    ensures var next := After(c, s, a);
            next.now < s.sessions[token].expires ==> token in next.sessions && next.sessions[token] == s.sessions[token]
  {
    assert SessionOk(c, s, token);
  }

  /** A session that nobody presents, of a user nobody deletes, lasts exactly until it expires. */
  lemma {:induction false} SessionLasts(c: Config, s: Table, run: seq<Action>, token: string)
    requires ValidConfig(c) && Inv(c, s) && Runs(c, s, run) && token in s.sessions
    requires forall a :: a in run ==> !Touches(a, token, s.sessions[token].owner)
    requires Exec(c, s, run).now < s.sessions[token].expires
    ensures token in Exec(c, s, run).sessions && Exec(c, s, run).sessions[token] == s.sessions[token]
    decreases |run|
  {
    if run != [] {
      var next := After(c, s, run[0]);
      SessionStep(c, s, run[0], token);
      StepInv(c, s, run[0]);
      ClockMonotone(c, next, run[1..]);
      SessionLasts(c, next, run[1..], token);
    }
  }

  /**
   The refresh token of a pair can be redeemed, for the same user, at any time within the refresh lifetime, unless it
   was presented before or the user was deleted.
   */
  lemma PairUsable(c: Config, s: Table, a: Action, run: seq<Action>, jti: string)
    requires ValidConfig(c) && Inv(c, s) && Enabled(s, a) && ReplyTo(c, s, a).Pair? && Runs(c, After(c, s, a), run)
    requires var pair := ReplyTo(c, s, a).pair;
             forall b :: b in run ==> !Touches(b, pair.refresh, pair.access.subject)
    requires Exec(c, After(c, s, a), run).now < s.now + c.refreshTtl
    ensures var pair := ReplyTo(c, s, a).pair;
            var r := ReplyTo(c, Exec(c, After(c, s, a), run), DoRefresh(pair.refresh, jti));
            r.Pair? && r.pair.access.subject == pair.access.subject && r.pair.access.tenant == pair.access.tenant
  {
    var next, pair := After(c, s, a), ReplyTo(c, s, a).pair;
    StepInv(c, s, a);
    PairStored(c, s, a);
    SessionLasts(c, next, run, pair.refresh);
    RunInv(c, next, run);
    RefreshAnswer(c, Exec(c, next, run), pair.refresh, jti);
  }

  lemma PairStored(c: Config, s: Table, a: Action)
    requires Inv(c, s) && ReplyTo(c, s, a).Pair?
    ensures var next, pair := After(c, s, a), ReplyTo(c, s, a).pair;
            && pair.refresh in next.sessions
            && next.sessions[pair.refresh] == Session(pair.access.subject, pair.access.tenant, s.now + c.refreshTtl)
  {
    match a
    case DoLogin(tenant, username, plain, jti) => FoundByName(s, tenant, username);
    case DoRefresh(token, jti) => RefreshAnswer(c, s, token, jti);
    case _ =>
  }

  // ---- the password ----

  /** The action sets a new password hash for the user. */
  predicate Rehashes(a: Action, id: Uuid) {
    a.DoStatement? && a.q.Rehash? && a.q.id == id
  }

  /** Nothing but a change of the password changes a user's hash. */
  lemma {:induction false} HashLasts(c: Config, s: Table, run: seq<Action>, id: Uuid)
    requires Runs(c, s, run) && id in s.users && forall a :: a in run ==> !Rehashes(a, id)
    ensures id in Exec(c, s, run).users && Exec(c, s, run).users[id].hash == s.users[id].hash
    decreases |run|
  {
    if run != [] {
      assert !Rehashes(run[0], id);
      HashLasts(c, After(c, s, run[0]), run[1..], id);
    }
  }

  /**
   Once a user's hash is that of password p, then until the password is changed, whatever else happens, a login under
   the user's name at a door that is not locked answers with a pair for that user if and only if argon2 of the given
   password agrees with argon2 of p under that salt, and otherwise counts as invalid credentials.
   */
  lemma PasswordDecides(c: Config, kdf: Password.Kdf, s: Table, run: seq<Action>, id: Uuid, p: string, salt: seq<Octet>,
                        tenant: Uuid, username: string, q: string, jti: string)
    requires ValidConfig(c) && Inv(c, s) && Runs(c, s, run)
    requires forall plain, hash :: c.verify(plain, hash) == Password.Verify(kdf, plain, hash)
    requires id in s.users && s.users[id].hash == Password.Hash(kdf, p, salt) && |kdf(p, salt, 2, 65536, 4, 32)| == 32
    requires forall a :: a in run ==> !Rehashes(a, id)
    requires Named(Exec(c, s, run).users, id, tenant, username) && Failures(Exec(c, s, run), (tenant, username)) < 5
    ensures var r := ReplyTo(c, Exec(c, s, run), DoLogin(tenant, username, q, jti));
            if kdf(q, salt, 2, 65536, 4, 32) == kdf(p, salt, 2, 65536, 4, 32)
            then r.Pair? && r.pair.access.subject == id
            else r == Failed(InvalidCredentials)
  {
    var end := Exec(c, s, run);
    HashLasts(c, s, run, id);
    RunInv(c, s, run);
    Password.HashVerify(kdf, p, q, salt);
    LoginAnswer(c, end, tenant, username, q, jti, id);
  }
}
