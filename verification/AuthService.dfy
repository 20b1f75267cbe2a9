/**
 `internal/service/auth.go`, command by command on the Redis server and the user store.  Each method is proved to
 be one atomic request of the session table, whatever its detours through the reverse index.
 */
module AuthService {
  import opened Prelude
  import opened Uuid
  import opened Accounts
  import opened Keyspace
  import opened SessionTable
  import opened Refinement
  import Password
  import Redis
  import UserStore

  /** The live row of this tenant and name holds the hash of password `p` under `salt`. */
  ghost predicate ByPassword(kdf: Password.Kdf, users: Users, tenant: Uuid, username: string, id: Uuid, p: string,
                             salt: seq<Octet>)
  {
    && id in users && !users[id].deleted && users[id].tenant == tenant && users[id].username == username
    && users[id].hash == Password.Hash(kdf, p, salt) && |kdf(p, salt, 2, 65536, 4, 32)| == 32
  }

  /**
   What a login answers, said on the stores: five failures lock; an unknown name is invalid credentials; and a known
   one gets a pair if and only if argon2 of the given password agrees with argon2 of the stored one.
   */
  ghost predicate PasswordDecides(kdf: Password.Kdf, users: Users, failures: nat, tenant: Uuid, username: string,
                                  plain: string, r: Reply)
  {
    && (failures >= 5 ==> r == Failed(AccountLocked))
    && (failures < 5 && (forall id :: !Named(users, id, tenant, username)) ==> r == Failed(InvalidCredentials))
    && (failures < 5 ==>
          forall id, p, salt :: ByPassword(kdf, users, tenant, username, id, p, salt) ==>
            if kdf(plain, salt, 2, 65536, 4, 32) == kdf(p, salt, 2, 65536, 4, 32)
            then r.Pair? && r.pair.access.subject == id
            else r == Failed(InvalidCredentials))
  }

  class Service {
    const users: UserStore.Store
    const rdb: Redis.Server
    const kdf: Password.Kdf
    const refreshTtl: Time
    const accessTtl: Time

    /** History: every access token signed and every refresh token drawn so far. */
    ghost var signed: set<Claims>
    ghost var drawn: set<string>

    ghost function Cfg(): Config {
      Config(refreshTtl, accessTtl, (plain, hash) => Password.Verify(kdf, plain, hash))
    }

    ghost function State(): Stores
      reads this, users, rdb
    {
      Stores(rdb.now, users.Users(), rdb.keys, signed, drawn)
    }

    ghost predicate Valid()
      reads this, users, rdb
    {
      users.Valid() && rdb.Valid() && StoresOk(Cfg(), State())
    }

    /** The service as a plain session table. */
    ghost function Table(): SessionTable.Table
      reads this, users, rdb
    {
      Abstract(State())
    }

    constructor (users: UserStore.Store, rdb: Redis.Server, kdf: Password.Kdf, refreshTtl: Time, accessTtl: Time)
      requires users.Valid() && users.Users() == map[] && rdb.Valid() && rdb.keys == NO_KEYS && rdb.now == 0
      requires refreshTtl > 0 && refreshTtl % 1000 == 0
      ensures Valid() && Table() == EMPTY
      ensures this.users == users && this.rdb == rdb && this.kdf == kdf && this.refreshTtl == refreshTtl
              && this.accessTtl == accessTtl
    {
      this.users, this.rdb, this.kdf, this.refreshTtl, this.accessTtl := users, rdb, kdf, refreshTtl, accessTtl;
      signed, drawn := {}, {};
      new;
      assert Table() == EMPTY;
      EmptyInv(Cfg());
    }

    /** The world's clock moves on. */
    method Advance(d: Time)
      requires Valid()
      modifies rdb
      ensures Valid() && Table() == Tick(old(Table()), d)
    {
      ghost var c, st := Cfg(), State();
      TimePassed(c, st, d);
      rdb.Advance(d);
      assert State() == Later(st, d) && StoresOk(c, Later(st, d));
    }

    /** `jti` is the freshly drawn random token. */
    method Login(tenant: Uuid, username: string, plain: string, jti: string) returns (r: Reply)
      requires Valid() && jti !in drawn
      modifies `signed, `drawn, rdb
      ensures Valid()
      ensures (Table(), r) == SessionTable.Login(Cfg(), old(Table()), tenant, username, plain, jti)
      ensures var failures := Counter(old(rdb.keys), (tenant, username));
              PasswordDecides(kdf, users.Users(), failures, tenant, username, plain, r)
    {
      LoginAnswers(Table(), tenant, username, plain, jti);
      ghost var door := (tenant, username);
      var bruteKey := BRUTE_PREFIX + Text(tenant) + ":" + username;
      assert bruteKey == Print(BruteKey(door));

      var count := rdb.GetInt(bruteKey, door);
      if count >= BRUTE_LIMIT {
        return Failed(AccountLocked);
      }

      var user := users.GetByUsernameAndTenant(tenant, username);
      if user.None? {
        IncBrute(bruteKey, door);
        return Failed(InvalidCredentials);
      }

      var verdict := Password.Verify(kdf, plain, user.value.hash);
      assert verdict == Cfg().verify(plain, user.value.hash);
      if verdict.Err? {
        return Failed(BadHash);
      }
      if !verdict.value {
        IncBrute(bruteKey, door);
        return Failed(InvalidCredentials);
      }

      FoundByName(Table(), tenant, username);
      FailuresCleared(Cfg(), State(), door);
      rdb.Del(bruteKey, BruteKey(door));
      r := MakePair(user.value, jti);
    }

    lemma LoginAnswers(s: SessionTable.Table, tenant: Uuid, username: string, plain: string, jti: string)
      requires UniqueIndexes(s.users)
      ensures PasswordDecides(kdf, s.users, Failures(s, (tenant, username)), tenant, username, plain,
                              SessionTable.Login(Cfg(), s, tenant, username, plain, jti).1)
    {
      forall id, p, salt | ByPassword(kdf, s.users, tenant, username, id, p, salt)
        ensures var r := SessionTable.Login(Cfg(), s, tenant, username, plain, jti).1;
                Failures(s, (tenant, username)) < 5 ==>
                  if kdf(plain, salt, 2, 65536, 4, 32) == kdf(p, salt, 2, 65536, 4, 32)
                  then r.Pair? && r.pair.access.subject == id
                  else r == Failed(InvalidCredentials)
      {
        FindByNameUnique(s.users, tenant, username, id);
        Password.HashVerify(kdf, p, plain, salt);
      }
    }

    method Refresh(refreshToken: string, jti: string) returns (r: Reply)
      requires Valid() && jti !in drawn
      modifies `signed, `drawn, rdb
      ensures Valid()
      ensures (Table(), r) == SessionTable.Refresh(Cfg(), old(Table()), refreshToken, jti)
    {
      var key := REFRESH_PREFIX + refreshToken;
      assert key == Print(RefreshKey(refreshToken));
      var data := rdb.Get(key, refreshToken);
      if data.None? {
        return Failed(InvalidRefreshToken);
      }
      var rp := data.value;
      ghost var payload := rdb.keys.refresh[refreshToken].payload;

      ghost var st := State();
      TokenDropped(Cfg(), st, refreshToken);
      Spend(key, refreshToken, rp, payload);
      assert State() == st.(keys := DropToken(st.keys, refreshToken, payload.user));

      // The two error branches after uuid.Parse are dead: both identifiers were printed by MakePair.
      var userId := ParseStored(rp.user_id, payload.user);
      var tenantId := ParseStored(rp.tenant_id, payload.tenant);

      var user := users.GetById(userId.value);
      if user.None? || user.value.tenant != tenantId.value {
        return Failed(InvalidRefreshToken);
      }
      r := MakePair(user.value, jti);
    }

    /** `uuid.Parse` of an identifier the service stored itself always succeeds. */
    method ParseStored(text: string, ghost id: Uuid) returns (r: Option<Uuid>)
      requires text == Text(id)
      ensures r == Some(id)
    {
      TextRoundTrip(id);
      r := Parse(text);
    }

    method Logout(refreshToken: string) returns (r: Reply)
      requires Valid()
      modifies rdb
      ensures Valid()
      ensures (Table(), r) == SessionTable.Logout(old(Table()), refreshToken)
      ensures r == Done && Table() == old(Table()).(sessions := old(Table()).sessions - {refreshToken})
    {
      var key := REFRESH_PREFIX + refreshToken;
      assert key == Print(RefreshKey(refreshToken));
      r := Done;
      var data := rdb.Get(key, refreshToken);
      if data.None? {
        assert Table().sessions - {refreshToken} == Table().sessions;
        return;
      }
      ghost var payload := rdb.keys.refresh[refreshToken].payload;
      ghost var st := State();
      TokenDropped(Cfg(), st, refreshToken);
      Forget(key, refreshToken, data.value, payload);
      assert State() == st.(keys := DropToken(st.keys, refreshToken, payload.user));
    }

    /** The deletion of the token in `Logout`: the index first. */
    method Forget(key: string, refreshToken: string, rp: Document, ghost payload: Payload)
      requires rdb.Valid() && key == Print(RefreshKey(refreshToken)) && rp == Marshal(payload)
      modifies rdb
      ensures rdb.Valid() && rdb.now == old(rdb.now) && rdb.keys == DropToken(old(rdb.keys), refreshToken, payload.user)
    {
      DropCommutes(rdb.keys, refreshToken, payload.user);
      rdb.SRem(INDEX_PREFIX + rp.user_id, refreshToken, payload.user);
      rdb.Del(key, RefreshKey(refreshToken));
    }

    /** The deletion of the old token in `Refresh`: the token first. */
    method Spend(key: string, refreshToken: string, rp: Document, ghost payload: Payload)
      requires rdb.Valid() && key == Print(RefreshKey(refreshToken)) && rp == Marshal(payload)
      modifies rdb
      ensures rdb.Valid() && rdb.now == old(rdb.now) && rdb.keys == DropToken(old(rdb.keys), refreshToken, payload.user)
    {
      rdb.Del(key, RefreshKey(refreshToken));
      rdb.SRem(INDEX_PREFIX + rp.user_id, refreshToken, payload.user);
    }

    /** Run by the deletion of a user, once the row is soft-deleted. */
    method RevokeAllForUser(userId: Uuid)
      requires rdb.Valid()
      modifies rdb
      ensures rdb.Valid() && rdb.now == old(rdb.now) && rdb.keys == RevokeKeys(old(rdb.keys), userId)
    {
      var setKey := INDEX_PREFIX + Text(userId);
      assert setKey == Print(IndexKey(userId));
      var jtis := rdb.SMembers(setKey, userId);
      var left := jtis;
      while left != {}
        invariant left <= jtis
        invariant rdb.Valid() && rdb.now == old(rdb.now)
        invariant rdb.keys == DelTokens(old(rdb.keys), jtis - left)
      {
        var jti :| jti in left;
        rdb.Del(REFRESH_PREFIX + jti, RefreshKey(jti));
        left := left - {jti};
        assert rdb.keys.refresh == old(rdb.keys).refresh - (jtis - left);
      }
      rdb.Del(setKey, IndexKey(userId));
    }

    method MakePair(user: User, jti: string) returns (r: Reply)
      requires Valid() && jti !in drawn
      requires Live(users.Users(), user.id) && user == RowOf(users.Users(), user.id)
      modifies `signed, `drawn, rdb
      ensures Valid()
      ensures (Table(), r) == Issue(Cfg(), old(Table()), user, jti)
    {
      ghost var c, st := Cfg(), State();
      PairStored(c, st, user, jti);
      var access := GenerateToken(user);
      Record(user, jti, access);
      assert StoresOk(c, WithPair(c, st, user, jti));
      r := Pair(TokenPair(access, jti, accessTtl / 1000));
    }

    /** The part of `makePair` that writes, with the signature and the draw. */
    method Record(user: User, jti: string, access: Claims)
      requires rdb.Valid() && access == Generate(Cfg(), user, rdb.now)
      modifies `signed, `drawn, rdb
      ensures rdb.Valid() && State() == WithPair(Cfg(), old(State()), user, jti)
    {
      ghost var payload := PayloadFor(Cfg(), user, rdb.now);
      var rp := RefreshPayload(user);
      Pipeline(jti, rp, payload);
      signed, drawn := signed + {access}, drawn + {jti};
    }

    /** `token.Service.Generate`. */
    method GenerateToken(user: User) returns (access: Claims)
      ensures access == Generate(Cfg(), user, rdb.now)
    {
      access := Claims(user.id, user.tenant, user.roles, Seconds(rdb.now), Seconds(rdb.now + accessTtl));
    }

    method RefreshPayload(user: User) returns (rp: Document)
      ensures rp == Marshal(PayloadFor(Cfg(), user, rdb.now))
    {
      rp := Document(Text(user.id), Text(user.tenant), user.roles, rdb.now / 1000, (rdb.now + refreshTtl) / 1000);
    }

    /** The pipelined SET, SADD and EXPIRE. */
    method Pipeline(jti: string, rp: Document, ghost payload: Payload)
      requires rdb.Valid() && rp == Marshal(payload)
      modifies rdb
      ensures rdb.Valid() && rdb.now == old(rdb.now)
      ensures rdb.keys == StorePair(old(rdb.keys), jti, payload, rdb.now + refreshTtl, rdb.now + Whole(refreshTtl))
    {
      rdb.Set(REFRESH_PREFIX + jti, rp, refreshTtl, jti, payload);
      rdb.SAdd(INDEX_PREFIX + rp.user_id, jti, payload.user);
      rdb.ExpireIndex(INDEX_PREFIX + rp.user_id, refreshTtl, payload.user);
    }

    method IncBrute(key: string, ghost door: Door)
      requires Valid() && key == Print(BruteKey(door)) && Failures(Table(), door) < BRUTE_LIMIT
      modifies rdb
      ensures Valid() && Table() == CountFailure(old(Table()), door)
    {
      ghost var st := State();
      FailureCounted(Cfg(), st, door);
      var n := rdb.Incr(key, door);
      if n == 1 {
        rdb.ExpireTally(key, BRUTE_TTL, door);
      }
      assert State() == st.(keys := CountUp(st.keys, door, st.now));
    }
  }
}
