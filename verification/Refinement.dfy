/**
 The stores the service really uses (Redis keys with a reverse index, Postgres rows) against the plain session
 table: what each group of commands does to the keys is what one request does to the table.
 */
module Refinement {
  import opened Prelude
  import opened Uuid
  import opened Accounts
  import opened Keyspace
  import opened SessionTable

  datatype Stores = Stores(now: Time, users: Users, keys: Keys, signed: set<Claims>, drawn: set<string>)

  // ---- the abstraction ----

  function SessionOf(t: Token): Session {
    Session(t.payload.user, t.payload.tenant, t.expires)
  }

  /** A counter's window opened 15 minutes before the counter expires. */
  function WindowOf(t: Tally): Window {
    Window(t.count, if t.expires.Some? && t.expires.value >= BRUTE_TTL then t.expires.value - BRUTE_TTL else 0)
  }

  function Sessions(m: Keys): map<string, Session> {
    map t | t in m.refresh :: SessionOf(m.refresh[t])
  }

  function OpenWindows(m: Keys): map<Door, Window> {
    map d | d in m.brute :: WindowOf(m.brute[d])
  }

  /** The index is forgotten. */
  function Abstract(st: Stores): Table {
    Table(st.now, st.users, Sessions(st.keys), OpenWindows(st.keys), st.signed, st.drawn)
  }

  // ---- the invariant of the stores ----

  /** The set of the token's owner lists it, and lives at least as long. */
  predicate Listed(m: Keys, token: string)
    requires token in m.refresh
  {
    var u := m.refresh[token].payload.user;
    && u in m.index && token in m.index[u].jtis
    && m.index[u].expires.Some? && m.index[u].expires.value >= m.refresh[token].expires
  }

  /** Whatever a set lists and still is a token, is a token of the set's owner. */
  predicate OwnersAgree(m: Keys) {
    forall u, t :: u in m.index && t in m.index[u].jtis && t in m.refresh ==> m.refresh[t].payload.user == u
  }

  predicate Indexed(m: Keys) {
    && (forall t :: t in m.refresh ==> Listed(m, t))
    && OwnersAgree(m)
  }

  /** Every counter has an expiry (the count is under way in no request). */
  predicate Timed(m: Keys) {
    forall d :: d in m.brute ==> m.brute[d].expires.Some? && m.brute[d].expires.value >= BRUTE_TTL
  }

  predicate AllDrawn(m: Keys, drawn: set<string>) {
    forall u, t :: u in m.index && t in m.index[u].jtis ==> t in drawn
  }

  ghost predicate StoresOk(c: Config, st: Stores) {
    && ValidConfig(c)
    && Indexed(st.keys)
    && Timed(st.keys)
    && AllDrawn(st.keys, st.drawn)
    && Inv(c, Abstract(st))
  }

  // ---- storing a pair: SET, SADD, EXPIRE ----

  function PayloadFor(c: Config, user: User, now: Time): Payload {
    Payload(user.id, user.tenant, user.roles, now / 1000, (now + c.refreshTtl) / 1000)
  }

  /** The pipeline of `makePair`. */
  function StorePair(m: Keys, jti: string, payload: Payload, expires: Time, lapses: Time): Keys {
    ExpireIndex(SAdd(Set(m, jti, payload, expires), payload.user, jti), payload.user, lapses)
  }

  lemma StorePairIndexed(m: Keys, jti: string, payload: Payload, expires: Time, lapses: Time)
    requires Indexed(m) && jti !in m.refresh && expires <= lapses
    requires forall t :: t in m.refresh ==> m.refresh[t].expires <= expires
    requires forall u :: u in m.index ==> jti !in m.index[u].jtis
    ensures Indexed(StorePair(m, jti, payload, expires, lapses))
  {
  }

  lemma StorePairSessions(m: Keys, jti: string, payload: Payload, expires: Time, lapses: Time)
    ensures var n := StorePair(m, jti, payload, expires, lapses);
            Sessions(n) == Sessions(m)[jti := Session(payload.user, payload.tenant, expires)] && n.brute == m.brute
  {
  }

  /** The stores after a pair was stored for `user`. */
  function WithPair(c: Config, st: Stores, user: User, jti: string): Stores {
    var payload := PayloadFor(c, user, st.now);
    st.(keys := StorePair(st.keys, jti, payload, st.now + c.refreshTtl, st.now + Whole(c.refreshTtl)),
        signed := st.signed + {Generate(c, user, st.now)}, drawn := st.drawn + {jti})
  }

  lemma PairIndexed(c: Config, st: Stores, user: User, jti: string)
    requires StoresOk(c, st) && jti !in st.drawn
    ensures var after := WithPair(c, st, user, jti);
            Indexed(after.keys) && Timed(after.keys) && AllDrawn(after.keys, after.drawn)
  {
    forall t | t in st.keys.refresh ensures t in st.drawn && st.keys.refresh[t].expires <= st.now + c.refreshTtl {
      assert t in Abstract(st).sessions && SessionOk(c, Abstract(st), t);
    }
    var payload := PayloadFor(c, user, st.now);
    StorePairIndexed(st.keys, jti, payload, st.now + c.refreshTtl, st.now + Whole(c.refreshTtl));
  }

  lemma PairIssued(c: Config, st: Stores, user: User, jti: string)
    ensures Abstract(WithPair(c, st, user, jti)) == Issue(c, Abstract(st), user, jti).0
  {
    var payload := PayloadFor(c, user, st.now);
    StorePairSessions(st.keys, jti, payload, st.now + c.refreshTtl, st.now + Whole(c.refreshTtl));
  }

  /** The pipeline with its signature and draw issues one session. */
  lemma PairStored(c: Config, st: Stores, user: User, jti: string)
    requires StoresOk(c, st) && jti !in st.drawn
    requires Live(st.users, user.id) && user == RowOf(st.users, user.id)
    ensures StoresOk(c, WithPair(c, st, user, jti))
    ensures (Abstract(WithPair(c, st, user, jti)), Pair(TokenPair(Generate(c, user, st.now), jti, c.accessTtl / 1000)))
         == Issue(c, Abstract(st), user, jti)
  {
    PairIndexed(c, st, user, jti);
    PairIssued(c, st, user, jti);
    IssueInv(c, Abstract(st), user, jti);
  }

  // ---- dropping a token: DEL and SREM, in either order ----

  function DropToken(m: Keys, token: string, user: Uuid): Keys {
    SRem(Del(m, RefreshKey(token)), user, token)
  }

  lemma DropCommutes(m: Keys, token: string, user: Uuid)
    ensures Del(SRem(m, user, token), RefreshKey(token)) == DropToken(m, token, user)
  {
  }

  lemma DropIndexed(m: Keys, token: string, user: Uuid)
    requires Indexed(m)
    ensures var n := DropToken(m, token, user);
            Indexed(n) && n.brute == m.brute && Sessions(n) == Sessions(m) - {token}
  {
    var n := DropToken(m, token, user);
    forall t | t in n.refresh ensures Listed(n, t) { assert Listed(m, t); }
  }

  /** Deleting a token and its index entry closes one session. */
  lemma TokenDropped(c: Config, st: Stores, token: string)
    requires StoresOk(c, st) && token in st.keys.refresh
    ensures var after := st.(keys := DropToken(st.keys, token, st.keys.refresh[token].payload.user));
            StoresOk(c, after) && Abstract(after) == Logout(Abstract(st), token).0
  {
    DropIndexed(st.keys, token, st.keys.refresh[token].payload.user);
    StepInv(c, Abstract(st), DoLogout(token));
  }

  // ---- the failure counter: INCR, EXPIRE, DEL ----

  /** `incBrute`. */
  function CountUp(m: Keys, d: Door, now: Time): Keys {
    var n := Incr(m, d);
    if Counter(n, d) == 1 then ExpireTally(n, d, now + BRUTE_TTL) else n
  }

  lemma OtherFamilies(m: Keys, n: Keys)
    requires Indexed(m) && n.refresh == m.refresh && n.index == m.index
    ensures Indexed(n) && Sessions(n) == Sessions(m)
  {
  }

  /** INCR, and EXPIRE on the first, count a failure in its window. */
  lemma FailureCounted(c: Config, st: Stores, d: Door)
    requires StoresOk(c, st) && Failures(Abstract(st), d) < BRUTE_LIMIT
    ensures var after := st.(keys := CountUp(st.keys, d, st.now));
            StoresOk(c, after) && Abstract(after) == CountFailure(Abstract(st), d)
  {
    var n := CountUp(st.keys, d, st.now);
    assert d in st.keys.brute ==> d in Abstract(st).windows && WindowOk(Abstract(st), d);
    assert d in st.keys.brute ==> st.keys.brute[d].count >= 1;
    OtherFamilies(st.keys, n);
    assert OpenWindows(n) == CountFailure(Abstract(st), d).windows;
    CountInv(c, Abstract(st), d);
  }

  lemma CountInv(c: Config, s: Table, d: Door)
    requires Inv(c, s) && Failures(s, d) < BRUTE_LIMIT
    ensures Inv(c, CountFailure(s, d))
  {
  }

  /** DEL of the counter closes the window. */
  lemma FailuresCleared(c: Config, st: Stores, d: Door)
    requires StoresOk(c, st)
    ensures var after := st.(keys := Del(st.keys, BruteKey(d)));
            StoresOk(c, after) && Abstract(after) == Abstract(st).(windows := Abstract(st).windows - {d})
  {
    var n := Del(st.keys, BruteKey(d));
    OtherFamilies(st.keys, n);
    assert OpenWindows(n) == OpenWindows(st.keys) - {d};
    ClearInv(c, Abstract(st), d);
  }

  lemma ClearInv(c: Config, s: Table, d: Door)
    requires Inv(c, s)
    ensures Inv(c, s.(windows := s.windows - {d}))
  {
  }

  // ---- revoking: SMEMBERS, DEL each, DEL the set ----

  function DelTokens(m: Keys, jtis: set<string>): Keys {
    m.(refresh := m.refresh - jtis)
  }

  /** `RevokeAllForUser`. */
  function RevokeKeys(m: Keys, user: Uuid): Keys {
    Del(DelTokens(m, SMembers(m, user)), IndexKey(user))
  }

  /** Going through the index removes exactly the user's sessions: none is missed, no other is touched. */
  lemma RevokeExact(m: Keys, id: Uuid)
    requires Indexed(m)
    ensures Sessions(RevokeKeys(m, id)) == map t | t in Sessions(m) && Sessions(m)[t].owner != id :: Sessions(m)[t]
  {
  }

  /** Soft delete and revocation are the deletion of the table. */
  lemma UserRevoked(c: Config, st: Stores, id: Uuid)
    requires StoresOk(c, st) && Live(st.users, id)
    ensures var after := st.(users := SoftDelete(st.users, id), keys := RevokeKeys(st.keys, id));
            StoresOk(c, after) && Abstract(after) == Delete(Abstract(st), id).0
  {
    var n := RevokeKeys(st.keys, id);
    RevokeExact(st.keys, id);
    forall t | t in n.refresh ensures Listed(n, t) { assert Listed(st.keys, t); }
    assert OpenWindows(n) == OpenWindows(st.keys);
    DeleteInv(c, Abstract(st), id);
  }

  // ---- time and rows ----

  lemma PurgeIndexed(m: Keys, now: Time)
    requires Indexed(m)
    ensures Indexed(Purge(m, now))
  {
  }

  function Later(st: Stores, d: Time): Stores {
    Stores(st.now + d, st.users, Purge(st.keys, st.now + d), st.signed, st.drawn)
  }

  lemma SessionsLater(st: Stores, d: Time)
    ensures Sessions(Later(st, d).keys) == Unexpired(Sessions(st.keys), st.now + d)
  {
  }

  lemma WindowsLater(st: Stores, d: Time)
    requires Timed(st.keys)
    ensures Timed(Later(st, d).keys)
    ensures OpenWindows(Later(st, d).keys) == StillOpen(OpenWindows(st.keys), st.now + d)
  {
  }

  lemma TableLater(st: Stores, d: Time)
    requires Timed(st.keys)
    ensures Abstract(Later(st, d)) == Tick(Abstract(st), d)
  {
    SessionsLater(st, d);
    WindowsLater(st, d);
  }

  lemma KeysLater(st: Stores, d: Time)
    requires Indexed(st.keys) && Timed(st.keys) && AllDrawn(st.keys, st.drawn)
    ensures Indexed(Later(st, d).keys) && Timed(Later(st, d).keys) && AllDrawn(Later(st, d).keys, st.drawn)
  {
    PurgeIndexed(st.keys, st.now + d);
    WindowsLater(st, d);
  }

  /** Expiry of keys is expiry of sessions and windows; the index outlives what it lists. */
  lemma TimePassed(c: Config, st: Stores, d: Time)
    requires StoresOk(c, st)
    ensures StoresOk(c, Later(st, d)) && Abstract(Later(st, d)) == Tick(Abstract(st), d)
  {
    KeysLater(st, d);
    TableLater(st, d);
    TickInv(c, Abstract(st), d);
  }

  /** Any other statement on user rows leaves the sessions alone. */
  lemma RowsChanged(c: Config, st: Stores, q: Statement)
    requires StoresOk(c, st) && Enabled(Abstract(st), DoStatement(q))
    ensures var after := st.(users := Apply(st.users, q));
            StoresOk(c, after) && Abstract(after) == After(c, Abstract(st), DoStatement(q))
  {
    StepInv(c, Abstract(st), DoStatement(q));
  }
}
