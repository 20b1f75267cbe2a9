/** What whole serialized runs guarantee about sessions and access tokens. */
module SessionRuns {
  import opened Uuid
  import opened Accounts
  import opened Keyspace
  import opened SessionTable
  import Order

  // ---- a refresh token is redeemed at most once ----

  ghost predicate Redeems(c: Config, s: Table, a: Action, token: string) {
    a.DoRefresh? && a.token == token && ReplyTo(c, s, a).Pair?
  }

  ghost function Redemptions(c: Config, s: Table, run: seq<Action>, token: string): nat
    decreases |run|
  {
    if run == [] then 0
    else (if Redeems(c, s, run[0], token) then 1 else 0) + Redemptions(c, After(c, s, run[0]), run[1..], token)
  }

  /** A drawn token that is no longer a session never is one again. */
  lemma {:induction false} GoneForEver(c: Config, s: Table, run: seq<Action>, token: string)
    requires ValidConfig(c) && Inv(c, s) && Runs(c, s, run)
    requires token in s.drawn && token !in s.sessions
    ensures token !in Exec(c, s, run).sessions
    ensures Redemptions(c, s, run, token) == 0
    decreases |run|
  {
    if run != [] {
      StepInv(c, s, run[0]);
      GoneForEver(c, After(c, s, run[0]), run[1..], token);
    }
  }

  /** In serialized runs a refresh token is redeemed by at most one successful refresh. */
  lemma {:induction false} RedeemedOnce(c: Config, s: Table, run: seq<Action>, token: string)
    requires ValidConfig(c) && Inv(c, s) && Runs(c, s, run)
    ensures Redemptions(c, s, run, token) <= 1
    decreases |run|
  {
    if run != [] {
      var next := After(c, s, run[0]);
      StepInv(c, s, run[0]);
      if Redeems(c, s, run[0], token) {
        assert SessionOk(c, s, token);
        assert token in next.drawn && token !in next.sessions;
        GoneForEver(c, next, run[1..], token);
      } else {
        RedeemedOnce(c, next, run[1..], token);
      }
    }
  }

  // ---- conservation ----

  /** How many sessions of one user a run opened and closed, by cause. */
  datatype Flow = Flow(logins: nat, logouts: nat, spoilt: nat, revoked: nat, expired: nat) {
    function Plus(other: Flow): Flow {
      Flow(logins + other.logins, logouts + other.logouts, spoilt + other.spoilt, revoked + other.revoked,
           expired + other.expired)
    }

    function Net(): int { logins - logouts - spoilt - revoked - expired }
  }

  const NO_FLOW := Flow(0, 0, 0, 0, 0)

  function OwnedBy(sessions: map<string, Session>, u: Uuid): set<string> {
    set t | t in sessions && sessions[t].owner == u
  }

  function SessionsOf(s: Table, u: Uuid): set<string> {
    OwnedBy(s.sessions, u)
  }

  ghost function FlowOf(c: Config, s: Table, a: Action, u: Uuid): Flow {
    var mine := SessionsOf(s, u);
    match a
    case DoLogin(_, _, _, _) =>
      var r := ReplyTo(c, s, a);
      if r.Pair? && r.pair.access.subject == u then NO_FLOW.(logins := 1) else NO_FLOW
    case DoRefresh(token, _) =>
      if token in mine && ReplyTo(c, s, a).Failed? then NO_FLOW.(spoilt := 1) else NO_FLOW
    case DoLogout(token) => if token in mine then NO_FLOW.(logouts := 1) else NO_FLOW
    case DoDelete(id) => if id == u && Live(s.users, u) then NO_FLOW.(revoked := |mine|) else NO_FLOW
    case DoStatement(_) => NO_FLOW
    case DoTick(d) => NO_FLOW.(expired := |set t | t in mine && s.sessions[t].expires <= s.now + d|)
  }

  ghost function RunFlow(c: Config, s: Table, run: seq<Action>, u: Uuid): Flow
    decreases |run|
  {
    if run == [] then NO_FLOW else FlowOf(c, s, run[0], u).Plus(RunFlow(c, After(c, s, run[0]), run[1..], u))
  }

  lemma Closed(sessions: map<string, Session>, token: string, u: Uuid)
    requires token in sessions
    ensures |OwnedBy(sessions - {token}, u)| == |OwnedBy(sessions, u)| - (if sessions[token].owner == u then 1 else 0)
  {
    assert OwnedBy(sessions - {token}, u) == OwnedBy(sessions, u) - {token};
  }

  lemma Opened(sessions: map<string, Session>, jti: string, x: Session, u: Uuid)
    requires jti !in sessions
    ensures |OwnedBy(sessions[jti := x], u)| == |OwnedBy(sessions, u)| + (if x.owner == u then 1 else 0)
  {
    if x.owner == u {
      assert OwnedBy(sessions[jti := x], u) == OwnedBy(sessions, u) + {jti};
    } else {
      assert OwnedBy(sessions[jti := x], u) == OwnedBy(sessions, u);
    }
  }

  lemma LoginSessions(c: Config, s: Table, tenant: Uuid, username: string, plain: string, jti: string)
    ensures var (next, reply) := Login(c, s, tenant, username, plain, jti);
            if reply.Pair?
            then
              var access := reply.pair.access;
              next.sessions == s.sessions[jti := Session(access.subject, access.tenant, s.now + c.refreshTtl)]
            else next.sessions == s.sessions
  {
  }

  lemma LoginConserves(c: Config, s: Table, a: Action, u: Uuid)
    requires ValidConfig(c) && Inv(c, s) && Enabled(s, a) && a.DoLogin?
    ensures |SessionsOf(After(c, s, a), u)| == |SessionsOf(s, u)| + FlowOf(c, s, a, u).Net()
  {
    LoginSessions(c, s, a.tenant, a.username, a.plain, a.jti);
    assert a.jti !in s.sessions by { assert a.jti in s.sessions ==> SessionOk(c, s, a.jti); }
    var r := ReplyTo(c, s, a);
    if r.Pair? {
      Opened(s.sessions, a.jti, Session(r.pair.access.subject, r.pair.access.tenant, s.now + c.refreshTtl), u);
    }
  }

  lemma RefreshSessions(c: Config, s: Table, token: string, jti: string)
    requires Inv(c, s) && token in s.sessions
    ensures var (next, reply) := Refresh(c, s, token, jti);
            if reply.Pair?
            then
              var spent := s.sessions[token];
              next.sessions == (s.sessions - {token})[jti := Session(spent.owner, spent.tenant, s.now + c.refreshTtl)]
            else reply.Failed? && next.sessions == s.sessions - {token}
  {
  }

  /** Rotation at the level of owners: one session goes, and one of the same owner comes. */
  lemma Rotated(sessions: map<string, Session>, token: string, jti: string, renewed: Session, u: Uuid)
    requires token in sessions && jti !in sessions && renewed.owner == sessions[token].owner
    ensures |OwnedBy((sessions - {token})[jti := renewed], u)| == |OwnedBy(sessions, u)|
    ensures |OwnedBy(sessions - {token}, u)| == |OwnedBy(sessions, u)| - (if renewed.owner == u then 1 else 0)
  {
    Closed(sessions, token, u);
    Opened(sessions - {token}, jti, renewed, u);
  }

  lemma RefreshConserves(c: Config, s: Table, a: Action, u: Uuid)
    requires ValidConfig(c) && Inv(c, s) && Enabled(s, a) && a.DoRefresh?
    ensures |SessionsOf(After(c, s, a), u)| == |SessionsOf(s, u)| + FlowOf(c, s, a, u).Net()
  {
    if a.token in s.sessions {
      var spent := s.sessions[a.token];
      assert a.jti !in s.sessions by { assert a.jti in s.sessions ==> SessionOk(c, s, a.jti); }
      RefreshSessions(c, s, a.token, a.jti);
      Rotated(s.sessions, a.token, a.jti, Session(spent.owner, spent.tenant, s.now + c.refreshTtl), u);
    }
  }

  lemma TickConserves(c: Config, s: Table, d: Time, u: Uuid)
    ensures |SessionsOf(Tick(s, d), u)| == |SessionsOf(s, u)| + FlowOf(c, s, DoTick(d), u).Net()
  {
    var mine := SessionsOf(s, u);
    var expired := set t | t in mine && s.sessions[t].expires <= s.now + d;
    assert SessionsOf(Tick(s, d), u) == mine - expired;
  }

  /** Every request changes the number of a user's sessions by exactly its flow. */
  lemma StepConserves(c: Config, s: Table, a: Action, u: Uuid)
    requires ValidConfig(c) && Inv(c, s) && Enabled(s, a)
    ensures |SessionsOf(After(c, s, a), u)| == |SessionsOf(s, u)| + FlowOf(c, s, a, u).Net()
  {
    var mine, next := SessionsOf(s, u), After(c, s, a);
    match a
    case DoLogin(_, _, _, _) => LoginConserves(c, s, a, u);
    case DoRefresh(_, _) => RefreshConserves(c, s, a, u);
    case DoLogout(token) => assert SessionsOf(next, u) == mine - {token};
    case DoDelete(id) => assert SessionsOf(next, u) == if id == u && Live(s.users, u) then {} else mine;
    case DoStatement(_) => assert SessionsOf(next, u) == mine;
    case DoTick(d) => TickConserves(c, s, d, u);
  }

  /**
   Per user: sessions = successful logins - logouts that found a session - refreshes that consumed one and failed
   - revoked - expired.  A successful refresh opens one and closes one.
   */
  lemma {:induction false} Conservation(c: Config, s: Table, run: seq<Action>, u: Uuid)
    requires ValidConfig(c) && Inv(c, s) && Runs(c, s, run)
    ensures |SessionsOf(Exec(c, s, run), u)| == |SessionsOf(s, u)| + RunFlow(c, s, run, u).Net()
    decreases |run|
  {
    if run != [] {
      StepConserves(c, s, run[0], u);
      StepInv(c, s, run[0]);
      Conservation(c, After(c, s, run[0]), run[1..], u);
    }
  }

  /** A serialized refresh of a live session always answers with a pair, so none is ever spoilt. */
  lemma {:induction false} NothingSpoilt(c: Config, s: Table, run: seq<Action>, u: Uuid)
    requires ValidConfig(c) && Inv(c, s) && Runs(c, s, run)
    ensures RunFlow(c, s, run, u).spoilt == 0
    decreases |run|
  {
    if run != [] {
      if run[0].DoRefresh? && run[0].token in s.sessions {
        assert SessionOk(c, s, run[0].token);
      }
      StepInv(c, s, run[0]);
      NothingSpoilt(c, After(c, s, run[0]), run[1..], u);
    }
  }

  /** Over any serialized run: sessions gained = logins - logouts - revoked - expired. */
  lemma ShortConservation(c: Config, s: Table, run: seq<Action>, u: Uuid)
    requires ValidConfig(c) && Inv(c, s) && Runs(c, s, run)
    ensures var f := RunFlow(c, s, run, u);
            |SessionsOf(Exec(c, s, run), u)| == |SessionsOf(s, u)| + f.logins - f.logouts - f.revoked - f.expired
  {
    Conservation(c, s, run, u);
    NothingSpoilt(c, s, run, u);
  }

  /** From the empty table on, a user never has more live sessions than successful logins. */
  lemma NoMoreSessionsThanLogins(c: Config, run: seq<Action>, u: Uuid)
    requires ValidConfig(c) && Runs(c, EMPTY, run)
    ensures |SessionsOf(Exec(c, EMPTY, run), u)| <= RunFlow(c, EMPTY, run, u).logins
  {
    EmptyInv(c);
    Conservation(c, EMPTY, run, u);
    assert SessionsOf(EMPTY, u) == {};
  }

  // ---- identity along a rotation chain ----

  /** The user and tenant of the login each refresh token descends from. */
  type Origins = map<string, (Uuid, Uuid)>

  ghost function Descend(c: Config, s: Table, a: Action, o: Origins): Origins {
    match ReplyTo(c, s, a)
    case Pair(p) =>
      if a.DoLogin? then o[p.refresh := (p.access.subject, p.access.tenant)]
      else if a.DoRefresh? && a.token in o then o[p.refresh := o[a.token]]
      else o
    case _ => o
  }

  ghost function Descent(c: Config, s: Table, run: seq<Action>, o: Origins): Origins
    decreases |run|
  {
    if run == [] then o else Descent(c, After(c, s, run[0]), run[1..], Descend(c, s, run[0], o))
  }

  predicate Faithful(s: Table, o: Origins) {
    forall t :: t in s.sessions ==> t in o && o[t] == (s.sessions[t].owner, s.sessions[t].tenant)
  }

  lemma StepFaithful(c: Config, s: Table, a: Action, o: Origins)
    requires ValidConfig(c) && Inv(c, s) && Enabled(s, a) && Faithful(s, o)
    ensures Faithful(After(c, s, a), Descend(c, s, a, o))
  {
    assert forall t :: t in s.sessions ==> SessionOk(c, s, t);
  }

  /** Every session carries the user and tenant of the login it descends from. */
  lemma {:induction false} RunFaithful(c: Config, s: Table, run: seq<Action>, o: Origins)
    requires ValidConfig(c) && Inv(c, s) && Runs(c, s, run) && Faithful(s, o)
    ensures Faithful(Exec(c, s, run), Descent(c, s, run, o))
    decreases |run|
  {
    if run != [] {
      StepInv(c, s, run[0]);
      StepFaithful(c, s, run[0], o);
      RunFaithful(c, After(c, s, run[0]), run[1..], Descend(c, s, run[0], o));
    }
  }

  /**
   Whatever happened in between (renaming, deletion, reuse of the name), an access token obtained by refreshing
   carries the user and the tenant of the login at the root of its chain; and a login's own token carries the
   tenant that was asked for and the live user of that name.
   */
  lemma IdentityFixed(c: Config, run: seq<Action>, a: Action)
    requires ValidConfig(c) && Runs(c, EMPTY, run) && Enabled(Exec(c, EMPTY, run), a)
    requires ReplyTo(c, Exec(c, EMPTY, run), a).Pair?
    ensures var s := Exec(c, EMPTY, run);
            var o := Descent(c, EMPTY, run, map[]);
            var access := ReplyTo(c, s, a).pair.access;
            match a
            case DoLogin(tenant, username, _, _) =>
              access.tenant == tenant && Named(s.users, access.subject, tenant, username)
            case DoRefresh(token, _) => token in o && o[token] == (access.subject, access.tenant)
            case _ => false
  {
    EmptyInv(c);
    var s := Exec(c, EMPTY, run);
    RunFaithful(c, EMPTY, run, map[]);
    RunInv(c, EMPTY, run);
    match a
    case DoLogin(tenant, username, _, _) => FoundByName(s, tenant, username);
    case _ =>
  }

  // ---- bounded staleness of authorization ----

  predicate Holds(s: Table, u: Uuid, role: string) {
    Live(s.users, u) && role in s.users[u].roles
  }

  /** The claims are those of a live user, signed in the given state. */
  predicate SignedIn(c: Config, s: Table, claims: Claims) {
    Live(s.users, claims.subject) && claims == Generate(c, RowOf(s.users, claims.subject), s.now)
  }

  lemma StepSigns(c: Config, s: Table, a: Action, claims: Claims)
    requires claims in After(c, s, a).signed
    ensures claims in s.signed || SignedIn(c, s, claims)
  {
  }

  /** Every signature goes back to one state of the run, and to the row of its subject in that state. */
  lemma {:induction false} SignatureWitness(c: Config, s: Table, run: seq<Action>, claims: Claims) returns (k: nat)
    requires Runs(c, s, run)
    requires claims in Exec(c, s, run).signed && claims !in s.signed
    ensures k <= |run| && Runs(c, s, run[..k]) && SignedIn(c, Exec(c, s, run[..k]), claims)
    ensures Exec(c, s, run[..k]).now <= Exec(c, s, run).now
    decreases |run|
  {
    var next := After(c, s, run[0]);
    if claims in next.signed {
      StepSigns(c, s, run[0], claims);
      k := 0;
      ClockMonotone(c, s, run);
    } else {
      var j := SignatureWitness(c, next, run[1..], claims);
      k := j + 1;
      assert run[..k][1..] == run[1..][..j];
    }
  }

  /**
   If at the end of a run a signed token is accepted and names a role, then in some state of that run, less than
   accessTtl + 30 s ago, its subject was live and held the role in the database.
   */
  lemma BoundedStaleness(c: Config, run: seq<Action>, claims: Claims, role: string) returns (k: nat)
    requires Runs(c, EMPTY, run)
    requires claims in Exec(c, EMPTY, run).signed
    requires Accepted(claims, Exec(c, EMPTY, run).now) && role in claims.roles
    ensures k <= |run| && Holds(Exec(c, EMPTY, run[..k]), claims.subject, role)
    ensures var t := Exec(c, EMPTY, run[..k]).now; t <= Exec(c, EMPTY, run).now < t + c.accessTtl + LEEWAY
  {
    k := SignatureWitness(c, EMPTY, run, claims);
    var w := Exec(c, EMPTY, run[..k]);
    Order.SortedSound(w.users[claims.subject].roles);
  }
}
