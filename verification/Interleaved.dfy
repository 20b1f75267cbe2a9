/**
 The interleaved system: every Redis command and every SQL statement is a step of its own, any number of requests
 are in flight, and time passes between steps.  The pipeline of `makePair` is one step.
 */
module Interleaved {
  import opened Prelude
  import opened Uuid
  import opened Accounts
  import opened Keyspace
  import opened Refinement
  import T = SessionTable

  type Rid = nat

  /** Where a request stands: the command it is about to issue, and the locals it still needs. */
  datatype Pc =
    | LoginCheck(door: Door, plain: string)      // GET brute
    | LoginRead(door: Door, plain: string)       // SELECT the user; then verify the password
    | LoginIncr(door: Door)                      // INCR brute
    | LoginExpire(door: Door)                    // EXPIRE brute
    | LoginClear(door: Door, user: User)         // DEL brute
    | LoginPair(door: Door, user: User)          // the pipeline
    | RefreshGet(token: string)                  // GET refresh
    | RefreshDel(token: string, payload: Payload)   // DEL refresh
    | RefreshSRem(token: string, payload: Payload)  // SREM user_tokens
    | RefreshRead(token: string, payload: Payload)  // SELECT the user
    | RefreshPair(token: string, payload: Payload, user: User)  // the pipeline
    | LogoutGet(token: string)                   // GET refresh
    | LogoutSRem(token: string, payload: Payload)   // SREM user_tokens
    | LogoutDel(token: string, payload: Payload)    // DEL refresh
    | DeleteRow(id: Uuid)                        // UPDATE the row to deleted
    | RevokeList(id: Uuid)                       // SMEMBERS user_tokens
    | RevokeDel(id: Uuid, left: set<string>)     // DEL refresh, for one of `left`; DEL user_tokens when none is left

  datatype World = World(stores: Stores, procs: map<Rid, Pc>)

  /** `draw` is the random token a pair step draws, or the member a revocation deletes next. */
  datatype Action =
    | Begin(rid: Rid, pc: Pc)
    | Proceed(rid: Rid, draw: string)
    | Change(q: T.Statement)
    | Pass(d: Time)

  predicate Initial(pc: Pc) {
    pc.LoginCheck? || pc.RefreshGet? || pc.LogoutGet? || pc.DeleteRow?
  }

  predicate Pairing(pc: Pc) {
    pc.LoginPair? || pc.RefreshPair?
  }

  /** A drawn token is new, and a revocation deletes one of the members it read. */
  predicate May(st: Stores, pc: Pc, draw: string) {
    (Pairing(pc) ==> draw !in st.drawn) && (pc.RevokeDel? && pc.left != {} ==> draw in pc.left)
  }

  predicate Enabled(w: World, a: Action) {
    match a
    case Begin(rid, pc) => rid !in w.procs && Initial(pc)
    case Proceed(rid, draw) => rid in w.procs && May(w.stores, w.procs[rid], draw)
    case Change(q) => T.StatementOk(w.stores.users, q)
    case Pass(_) => true
  }

  // ---- one step ----

  /** The stores after the command at `pc`. */
  function Effect(c: T.Config, st: Stores, pc: Pc, draw: string): Stores {
    match pc
    case LoginIncr(door) => st.(keys := Incr(st.keys, door))
    case LoginExpire(door) => st.(keys := ExpireTally(st.keys, door, st.now + T.BRUTE_TTL))
    case LoginClear(door, _) => st.(keys := Del(st.keys, BruteKey(door)))
    case LoginPair(_, user) => WithPair(c, st, user, draw)
    case RefreshDel(token, _) => st.(keys := Del(st.keys, RefreshKey(token)))
    case RefreshSRem(token, payload) => st.(keys := SRem(st.keys, payload.user, token))
    case RefreshPair(_, _, user) => WithPair(c, st, user, draw)
    case LogoutSRem(token, payload) => st.(keys := SRem(st.keys, payload.user, token))
    case LogoutDel(token, _) => st.(keys := Del(st.keys, RefreshKey(token)))
    case DeleteRow(id) => st.(users := SoftDelete(st.users, id))
    case RevokeDel(id, left) => st.(keys := Del(st.keys, if left == {} then IndexKey(id) else RefreshKey(draw)))
    case _ => st
  }

  /** Where the request stands after the command at `pc`; None when it has returned. */
  ghost function Next(c: T.Config, st: Stores, pc: Pc, draw: string): Option<Pc> {
    match pc
    case LoginCheck(door, plain) =>
      if Counter(st.keys, door) >= T.BRUTE_LIMIT then None else Some(LoginRead(door, plain))
    case LoginRead(door, plain) =>
      (match FindByName(st.users, door.0, door.1)
       case None => Some(LoginIncr(door))
       case Some(user) =>
         match c.verify(plain, user.hash)
         case Err(_) => None
         case Ok(false) => Some(LoginIncr(door))
         case Ok(true) => Some(LoginClear(door, user)))
    case LoginIncr(door) => if Counter(st.keys, door) == 0 then Some(LoginExpire(door)) else None
    case LoginClear(door, user) => Some(LoginPair(door, user))
    case RefreshGet(token) =>
      if token in st.keys.refresh then Some(RefreshDel(token, st.keys.refresh[token].payload)) else None
    case RefreshDel(token, payload) => Some(RefreshSRem(token, payload))
    case RefreshSRem(token, payload) => Some(RefreshRead(token, payload))
    case RefreshRead(token, payload) =>
      (match FindById(st.users, payload.user)
       case None => None
       case Some(user) => if user.tenant != payload.tenant then None else Some(RefreshPair(token, payload, user)))
    case LogoutGet(token) =>
      if token in st.keys.refresh then Some(LogoutSRem(token, st.keys.refresh[token].payload)) else None
    case LogoutSRem(token, payload) => Some(LogoutDel(token, payload))
    case DeleteRow(id) => if Live(st.users, id) then Some(RevokeList(id)) else None
    case RevokeList(id) => Some(RevokeDel(id, SMembers(st.keys, id)))
    case RevokeDel(id, left) => if left == {} then None else Some(RevokeDel(id, left - {draw}))
    case _ => None
  }

  /** What a request returns when the command at `pc` is its last. */
  function Answer(c: T.Config, st: Stores, pc: Pc, draw: string): T.Reply {
    match pc
    case LoginCheck(_, _) => T.Failed(T.AccountLocked)
    case LoginRead(_, _) => T.Failed(T.BadHash)
    case LoginIncr(_) => T.Failed(T.InvalidCredentials)
    case LoginExpire(_) => T.Failed(T.InvalidCredentials)
    case LoginPair(_, user) => T.Pair(T.TokenPair(T.Generate(c, user, st.now), draw, c.accessTtl / 1000))
    case RefreshPair(_, _, user) => T.Pair(T.TokenPair(T.Generate(c, user, st.now), draw, c.accessTtl / 1000))
    case RefreshGet(_) => T.Failed(T.InvalidRefreshToken)
    case RefreshRead(_, _) => T.Failed(T.InvalidRefreshToken)
    case DeleteRow(_) => T.Failed(T.NotFound)
    case _ => T.Done
  }

  ghost function After(c: T.Config, w: World, a: Action): World {
    match a
    case Begin(rid, pc) => w.(procs := w.procs[rid := pc])
    case Proceed(rid, draw) =>
      if rid !in w.procs then w
      else
        var pc := w.procs[rid];
        World(Effect(c, w.stores, pc, draw),
              match Next(c, w.stores, pc, draw)
              case Some(next) => w.procs[rid := next]
              case None => w.procs - {rid})
    case Change(q) => w.(stores := w.stores.(users := T.Apply(w.stores.users, q)))
    case Pass(d) => w.(stores := Later(w.stores, d))
  }

  // ---- runs ----

  ghost predicate Runs(c: T.Config, w: World, run: seq<Action>)
    decreases |run|
  {
    run == [] || (Enabled(w, run[0]) && Runs(c, After(c, w, run[0]), run[1..]))
  }

  ghost function Exec(c: T.Config, w: World, run: seq<Action>): World
    decreases |run|
  {
    if run == [] then w else Exec(c, After(c, w, run[0]), run[1..])
  }

  const START := World(Stores(0, map[], NO_KEYS, {}, {}), map[])

  predicate Deleted(users: Users, u: Uuid) {
    u in users && users[u].deleted
  }

  /** Users never come back, and never change tenant. */
  lemma UsersEvolve(c: T.Config, w: World, a: Action)
    requires Enabled(w, a)
    ensures Evolves(w.stores.users, After(c, w, a).stores.users)
  {
  }

  lemma {:induction false} StaysDeleted(c: T.Config, w: World, run: seq<Action>, u: Uuid)
    requires Runs(c, w, run) && Deleted(w.stores.users, u)
    ensures Deleted(Exec(c, w, run).stores.users, u)
    decreases |run|
  {
    if run != [] {
      UsersEvolve(c, w, run[0]);
      StaysDeleted(c, After(c, w, run[0]), run[1..], u);
    }
  }

  // ---- no pair for a deleted user ----

  predicate ReadUser(pc: Pc, u: Uuid) {
    (pc.LoginClear? || pc.LoginPair? || pc.RefreshPair?) && pc.user.id == u
  }

  /** The requests that have read the row of `u` and have not returned. */
  function PastRead(w: World, u: Uuid): set<Rid> {
    set r | r in w.procs && ReadUser(w.procs[r], u)
  }

  /** In this step a request returns a pair whose access token is for `u`. */
  ghost predicate Issues(c: T.Config, w: World, a: Action, u: Uuid) {
    a.Proceed? && a.rid in w.procs && Next(c, w.stores, w.procs[a.rid], a.draw).None? &&
    var answer := Answer(c, w.stores, w.procs[a.rid], a.draw);
    answer.Pair? && answer.pair.access.subject == u
  }

  /** The requests that return a pair for `u` in the run. */
  ghost function Issuers(c: T.Config, w: World, run: seq<Action>, u: Uuid): multiset<Rid>
    decreases |run|
  {
    if run == [] then multiset{}
    else (if Issues(c, w, run[0], u) then multiset{run[0].rid} else multiset{})
         + Issuers(c, After(c, w, run[0]), run[1..], u)
  }

  lemma PastReadShrinks(c: T.Config, w: World, a: Action, u: Uuid)
    requires Enabled(w, a) && Deleted(w.stores.users, u)
    ensures PastRead(After(c, w, a), u) <= PastRead(w, u) - (if Issues(c, w, a, u) then {a.rid} else {})
  {
  }

  /**
   Once the deletion of `u` is committed, the pairs still issued for `u` come from requests that had read the row
   before, one each: no login and no refresh whose user read comes later returns a pair for `u`, even when a late
   pipeline leaves a live refresh token behind.
   */
  lemma {:induction false} NoPairAfterDeletion(c: T.Config, w: World, run: seq<Action>, u: Uuid)
    requires Runs(c, w, run) && Deleted(w.stores.users, u)
    ensures Issuers(c, w, run, u) <= multiset(PastRead(w, u))
    ensures |Issuers(c, w, run, u)| <= |PastRead(w, u)|
    decreases |run|
  {
    if run != [] {
      var next := After(c, w, run[0]);
      UsersEvolve(c, w, run[0]);
      PastReadShrinks(c, w, run[0], u);
      NoPairAfterDeletion(c, next, run[1..], u);
      assert multiset(PastRead(next, u)) <= multiset(PastRead(w, u));
      assert Issues(c, w, run[0], u) ==> run[0].rid in PastRead(w, u) && run[0].rid !in PastRead(next, u);
    }
    SmallerBag(Issuers(c, w, run, u), PastRead(w, u));
  }

  lemma SmallerBag(a: multiset<Rid>, b: set<Rid>)
    requires a <= multiset(b)
    ensures |a| <= |b|
  {
    assert multiset(b) == a + (multiset(b) - a);
    assert |multiset(b)| == |b|;
  }

  // ---- the life of a refresh token ----

  /** The step deletes `refresh:t`. */
  predicate Deletes(w: World, a: Action, t: string) {
    a.Proceed? && a.rid in w.procs &&
    match w.procs[a.rid]
    case RefreshDel(token, _) => token == t
    case LogoutDel(token, _) => token == t
    case RevokeDel(_, left) => left != {} && a.draw == t
    case _ => false
  }

  /** The step is a GET of `refresh:t` that finds it. */
  predicate Finds(w: World, a: Action, t: string) {
    a.Proceed? && a.rid in w.procs && t in w.stores.keys.refresh &&
    match w.procs[a.rid]
    case RefreshGet(token) => token == t
    case LogoutGet(token) => token == t
    case _ => false
  }

  /** The step is the pipeline that sets `refresh:t`. */
  predicate Sets(w: World, a: Action, t: string) {
    a.Proceed? && a.rid in w.procs && Pairing(w.procs[a.rid]) && a.draw == t
  }

  ghost predicate EverFinds(c: T.Config, w: World, run: seq<Action>, t: string)
    decreases |run|
  {
    run != [] && (Finds(w, run[0], t) || EverFinds(c, After(c, w, run[0]), run[1..], t))
  }

  lemma GoneStep(c: T.Config, w: World, a: Action, t: string)
    requires Enabled(w, a) && t in w.stores.drawn && t !in w.stores.keys.refresh
    ensures t in After(c, w, a).stores.drawn && t !in After(c, w, a).stores.keys.refresh
  {
  }

  /** A token that was drawn and is gone is never found again. */
  lemma {:induction false} GoneForEver(c: T.Config, w: World, run: seq<Action>, t: string)
    requires Runs(c, w, run) && t in w.stores.drawn && t !in w.stores.keys.refresh
    ensures !EverFinds(c, w, run, t) && t !in Exec(c, w, run).stores.keys.refresh
    decreases |run|
  {
    if run != [] {
      GoneStep(c, w, run[0], t);
      GoneForEver(c, After(c, w, run[0]), run[1..], t);
    }
  }

  /** A drawn token was set by an earlier pipeline of the run. */
  lemma {:induction false} DrawnWasSet(c: T.Config, w: World, run: seq<Action>, t: string) returns (k: nat)
    requires Runs(c, w, run) && t !in w.stores.drawn && t in Exec(c, w, run).stores.drawn
    ensures k < |run| && Sets(Exec(c, w, run[..k]), run[k], t)
    decreases |run|
  {
    var next := After(c, w, run[0]);
    if t in next.stores.drawn {
      k := 0;
    } else {
      var j := DrawnWasSet(c, next, run[1..], t);
      k := j + 1;
      assert run[..k][1..] == run[1..][..j];
    }
  }

  // ---- what the requests know about tokens ----

  /** The request's token was drawn, and while it is stored it holds the payload the request read. */
  predicate Remembers(st: Stores, token: string, payload: Payload) {
    token in st.drawn && (token in st.keys.refresh ==> st.keys.refresh[token].payload == payload)
  }

  predicate ProcOk(st: Stores, pc: Pc) {
    match pc
    case RefreshDel(token, payload) => Remembers(st, token, payload)
    case RefreshSRem(token, payload) => token in st.drawn && token !in st.keys.refresh
    case LogoutSRem(token, payload) => Remembers(st, token, payload)
    case LogoutDel(token, payload) => Remembers(st, token, payload)
    case RevokeList(id) => Deleted(st.users, id)
    case RevokeDel(id, left) =>
      Deleted(st.users, id)
      && forall t :: t in left ==> t in st.drawn && (t in st.keys.refresh ==> st.keys.refresh[t].payload.user == id)
    case _ => true
  }

  predicate TokensOk(c: T.Config, st: Stores) {
    && (forall t :: t in st.keys.refresh ==> t in st.drawn && st.keys.refresh[t].expires <= st.now + c.refreshTtl)
    && AllDrawn(st.keys, st.drawn)
    && OwnersAgree(st.keys)
  }

  predicate Sound(c: T.Config, w: World) {
    TokensOk(c, w.stores) && forall r :: r in w.procs ==> ProcOk(w.stores, w.procs[r])
  }

  /** How the stores may move under a request that is not the one stepping. */
  predicate Moves(st: Stores, after: Stores) {
    && Evolves(st.users, after.users)
    && st.drawn <= after.drawn
    && forall t :: t in after.keys.refresh && t in st.drawn ==>
         t in st.keys.refresh && after.keys.refresh[t] == st.keys.refresh[t]
  }

  lemma MovesKeepProc(st: Stores, after: Stores, pc: Pc)
    requires Moves(st, after) && ProcOk(st, pc)
    ensures ProcOk(after, pc)
  {
  }

  lemma StoreMoves(c: T.Config, st: Stores, user: User, jti: string)
    requires jti !in st.drawn && TokensOk(c, st)
    ensures Moves(st, WithPair(c, st, user, jti)) && TokensOk(c, WithPair(c, st, user, jti))
  {
  }

  lemma EffectMoves(c: T.Config, st: Stores, pc: Pc, draw: string)
    requires TokensOk(c, st) && (Pairing(pc) ==> draw !in st.drawn)
    ensures Moves(st, Effect(c, st, pc, draw)) && TokensOk(c, Effect(c, st, pc, draw))
  {
    if Pairing(pc) { StoreMoves(c, st, pc.user, draw); }
  }

  lemma NextOk(c: T.Config, st: Stores, pc: Pc, draw: string)
    requires TokensOk(c, st) && ProcOk(st, pc)
    ensures Next(c, st, pc, draw).Some? ==> ProcOk(Effect(c, st, pc, draw), Next(c, st, pc, draw).value)
  {
  }

  lemma SoundStep(c: T.Config, w: World, a: Action)
    requires Sound(c, w) && Enabled(w, a)
    ensures Sound(c, After(c, w, a))
  {
    var after := After(c, w, a);
    match a
    case Begin(rid, pc) =>
    case Proceed(rid, draw) =>
      EffectMoves(c, w.stores, w.procs[rid], draw);
      NextOk(c, w.stores, w.procs[rid], draw);
      forall r | r in after.procs ensures ProcOk(after.stores, after.procs[r]) {
        if r != rid { MovesKeepProc(w.stores, after.stores, w.procs[r]); }
      }
    case Change(q) =>
      forall r | r in after.procs ensures ProcOk(after.stores, after.procs[r]) {
        MovesKeepProc(w.stores, after.stores, w.procs[r]);
      }
    case Pass(d) =>
      forall r | r in after.procs ensures ProcOk(after.stores, after.procs[r]) {
        MovesKeepProc(w.stores, after.stores, w.procs[r]);
      }
  }

  /** What the requests in flight remember about tokens stays true. */
  lemma {:induction false} SoundRun(c: T.Config, w: World, run: seq<Action>)
    requires Sound(c, w) && Runs(c, w, run)
    ensures Sound(c, Exec(c, w, run))
    decreases |run|
  {
    if run != [] {
      SoundStep(c, w, run[0]);
      SoundRun(c, After(c, w, run[0]), run[1..]);
    }
  }

  /**
   Under every interleaving: a DEL of `refresh:t` only comes after the pipeline that set it, and after the DEL no GET
   of it ever succeeds again.
   */
  lemma MonotoneLife(c: T.Config, before: seq<Action>, a: Action, rest: seq<Action>, t: string) returns (k: nat)
    requires Runs(c, START, before) && Enabled(Exec(c, START, before), a) && Deletes(Exec(c, START, before), a, t)
    requires Runs(c, After(c, Exec(c, START, before), a), rest)
    ensures k < |before| && Sets(Exec(c, START, before[..k]), before[k], t)
    ensures !EverFinds(c, After(c, Exec(c, START, before), a), rest, t)
  {
    SoundRun(c, START, before);
    var w := Exec(c, START, before);
    assert ProcOk(w.stores, w.procs[a.rid]);
    k := DrawnWasSet(c, START, before, t);
    GoneForEver(c, After(c, w, a), rest, t);
  }

  // ---- the reverse index ----

  /** A Logout of this very token is between its SREM and its DEL. */
  predicate LeavingAt(w: World, r: Rid, t: string) {
    r in w.procs && w.procs[r].LogoutDel? && w.procs[r].token == t
  }

  ghost predicate IndexedOrExcused(w: World, t: string)
    requires t in w.stores.keys.refresh
  {
    || Listed(w.stores.keys, t)
    || Deleted(w.stores.users, w.stores.keys.refresh[t].payload.user)
    || exists r :: LeavingAt(w, r, t)
  }

  ghost predicate IndexOk(w: World) {
    forall t :: t in w.stores.keys.refresh ==> IndexedOrExcused(w, t)
  }

  /** A token that outlives a step is the one it was. */
  lemma TokenKept(c: T.Config, w: World, a: Action, t: string)
    requires Enabled(w, a) && !Sets(w, a, t) && t in After(c, w, a).stores.keys.refresh
    ensures t in w.stores.keys.refresh && After(c, w, a).stores.keys.refresh[t] == w.stores.keys.refresh[t]
  {
  }

  lemma SRemKeeps(m: Keys, u: Uuid, x: string, t: string)
    requires x != t && t in m.refresh && Listed(m, t)
    ensures Listed(SRem(m, u, x), t)
  {
  }

  /**
   A set lives at least as long as the token it was last renewed for: the lifetime is whole seconds, or less than one.
   (Zero, which SET takes as no expiry at all, is outside the model.)
   */
  predicate SetsOutlive(c: T.Config) {
    0 < c.refreshTtl <= Whole(c.refreshTtl)
  }

  /** A listed token stays listed, unless its owner's revocation drops the set or its own logout removes the entry. */
  lemma CommandKeepsListed(c: T.Config, st: Stores, pc: Pc, draw: string, t: string)
    requires SetsOutlive(c) && TokensOk(c, st) && ProcOk(st, pc) && (Pairing(pc) ==> draw !in st.drawn)
    requires t in st.keys.refresh && t in Effect(c, st, pc, draw).keys.refresh && Listed(st.keys, t)
    ensures || Listed(Effect(c, st, pc, draw).keys, t)
            || (pc.RevokeDel? && pc.id == st.keys.refresh[t].payload.user)
            || (pc.LogoutSRem? && pc.token == t)
  {
    var n := Effect(c, st, pc, draw).keys;
    var u := st.keys.refresh[t].payload.user;
    match pc
    case LoginPair(_, user) =>
      assert u == user.id ==> n.index[u] == Index(SMembers(st.keys, u) + {draw}, Some(st.now + Whole(c.refreshTtl)));
    case RefreshPair(_, _, user) =>
      assert u == user.id ==> n.index[u] == Index(SMembers(st.keys, u) + {draw}, Some(st.now + Whole(c.refreshTtl)));
    case RefreshSRem(token, payload) => SRemKeeps(st.keys, payload.user, token, t);
    case LogoutSRem(token, payload) => if token != t { SRemKeeps(st.keys, payload.user, token, t); }
    case _ =>
  }

  lemma ExcuseKept(c: T.Config, w: World, a: Action, t: string)
    requires Enabled(w, a) && !Sets(w, a, t) && t in w.stores.keys.refresh && t in After(c, w, a).stores.keys.refresh
    requires Deleted(w.stores.users, w.stores.keys.refresh[t].payload.user) || exists r :: LeavingAt(w, r, t)
    ensures IndexedOrExcused(After(c, w, a), t)
  {
    UsersEvolve(c, w, a);
    TokenKept(c, w, a, t);
    if r :| LeavingAt(w, r, t) {
      assert LeavingAt(After(c, w, a), r, t);
    }
  }

  /** Every command keeps the index complete but for the two exceptions. */
  lemma IndexStep(c: T.Config, w: World, a: Action)
    requires SetsOutlive(c) && Sound(c, w) && IndexOk(w) && Enabled(w, a)
    ensures IndexOk(After(c, w, a))
  {
    var after := After(c, w, a);
    forall t | t in after.stores.keys.refresh ensures IndexedOrExcused(after, t) {
      if Sets(w, a, t) {
        assert Listed(after.stores.keys, t);
      } else {
        TokenKept(c, w, a, t);
        if !Listed(w.stores.keys, t) {
          ExcuseKept(c, w, a, t);
        } else if a.Proceed? {
          CommandKeepsListed(c, w.stores, w.procs[a.rid], a.draw, t);
          UsersEvolve(c, w, a);
          assert w.procs[a.rid].LogoutSRem? && w.procs[a.rid].token == t ==> LeavingAt(after, a.rid, t);
        } else {
          assert Listed(after.stores.keys, t);
        }
      }
    }
  }

  lemma {:induction false} IndexRun(c: T.Config, w: World, run: seq<Action>)
    requires SetsOutlive(c) && Sound(c, w) && IndexOk(w) && Runs(c, w, run)
    ensures IndexOk(Exec(c, w, run))
    decreases |run|
  {
    if run != [] {
      SoundStep(c, w, run[0]);
      IndexStep(c, w, run[0]);
      IndexRun(c, After(c, w, run[0]), run[1..]);
    }
  }

  /**
   When sets outlive tokens, as for every whole number of seconds, then in every reachable state each live refresh
   token is in its owner's set, and the set expires no earlier than the token, unless the owner is deleted already or
   a Logout of that same token is between its SREM and its DEL.
   */
  lemma AlwaysIndexed(c: T.Config, run: seq<Action>, t: string)
    requires SetsOutlive(c) && Runs(c, START, run) && t in Exec(c, START, run).stores.keys.refresh
    ensures var w := Exec(c, START, run);
            || Listed(w.stores.keys, t)
            || Deleted(w.stores.users, w.stores.keys.refresh[t].payload.user)
            || exists r :: LeavingAt(w, r, t)
  {
    IndexRun(c, START, run);
    assert IndexedOrExcused(Exec(c, START, run), t);
  }

  // ---- the failure counter ----

  predicate AtDoor(pc: Pc, door: Door) {
    (pc.LoginCheck? || pc.LoginRead? || pc.LoginIncr? || pc.LoginExpire? || pc.LoginClear? || pc.LoginPair?)
    && pc.door == door
  }

  /** The logins of a door that are in flight. */
  function InFlight(w: World, door: Door): set<Rid> {
    set r | r in w.procs && AtDoor(w.procs[r], door)
  }

  /** Those that passed the check and may still count a failure. */
  function Checked(w: World, door: Door): set<Rid> {
    set r | r in w.procs && (w.procs[r].LoginRead? || w.procs[r].LoginIncr?) && w.procs[r].door == door
  }

  ghost predicate AtMost(c: T.Config, w: World, run: seq<Action>, door: Door, k: nat)
    decreases |run|
  {
    |InFlight(w, door)| <= k && (run == [] || AtMost(c, After(c, w, run[0]), run[1..], door, k))
  }

  /** The counter and the failures still under way. */
  function Load(w: World, door: Door): nat {
    Counter(w.stores.keys, door) + |Checked(w, door)|
  }

  lemma CheckedInFlight(w: World, door: Door)
    ensures |Checked(w, door)| <= |InFlight(w, door)|
  {
    assert InFlight(w, door) == Checked(w, door) + (InFlight(w, door) - Checked(w, door));
  }

  /** Only a request of the door that passes the check or counts a failure changes who is checked. */
  lemma CheckedStep(c: T.Config, w: World, rid: Rid, draw: string, door: Door)
    requires Enabled(w, Proceed(rid, draw))
    ensures var after := After(c, w, Proceed(rid, draw));
            var pc := w.procs[rid];
            if pc.LoginIncr? && pc.door == door
            then Checked(after, door) == Checked(w, door) - {rid} && rid in Checked(w, door)
            else (pc.LoginCheck? && pc.door == door && Counter(w.stores.keys, door) < T.BRUTE_LIMIT)
                 || Checked(after, door) <= Checked(w, door)
  {
  }

  lemma CounterStep(c: T.Config, st: Stores, pc: Pc, draw: string, door: Door)
    ensures var n := Counter(Effect(c, st, pc, draw).keys, door);
            if pc.LoginIncr? && pc.door == door then n == Counter(st.keys, door) + 1 else n <= Counter(st.keys, door)
  {
  }

  lemma LoadProceed(c: T.Config, w: World, rid: Rid, draw: string, door: Door)
    requires Enabled(w, Proceed(rid, draw))
    ensures var after := After(c, w, Proceed(rid, draw));
            Load(after, door) <= Load(w, door) || Counter(after.stores.keys, door) < T.BRUTE_LIMIT
  {
    var after := After(c, w, Proceed(rid, draw));
    CheckedStep(c, w, rid, draw, door);
    CounterStep(c, w.stores, w.procs[rid], draw, door);
    if Checked(after, door) <= Checked(w, door) {
      SubsetSize(Checked(after, door), Checked(w, door));
    }
  }

  /** No step lifts the load above 4 + k. */
  lemma LoadStep(c: T.Config, w: World, a: Action, door: Door, k: nat)
    requires Enabled(w, a) && Load(w, door) <= 4 + k && |InFlight(After(c, w, a), door)| <= k
    ensures Load(After(c, w, a), door) <= 4 + k
  {
    CheckedInFlight(After(c, w, a), door);
    match a
    case Begin(rid, pc) => assert Checked(After(c, w, a), door) == Checked(w, door);
    case Proceed(rid, draw) => LoadProceed(c, w, rid, draw, door);
    case Change(q) => assert Checked(After(c, w, a), door) == Checked(w, door);
    case Pass(d) => assert Checked(After(c, w, a), door) == Checked(w, door);
  }

  lemma {:induction false} LoadRun(c: T.Config, w: World, run: seq<Action>, door: Door, k: nat)
    requires Runs(c, w, run) && AtMost(c, w, run, door, k) && Load(w, door) <= 4 + k
    ensures Load(Exec(c, w, run), door) <= 4 + k
    decreases |run|
  {
    if run != [] {
      LoadStep(c, w, run[0], door, k);
      LoadRun(c, After(c, w, run[0]), run[1..], door, k);
    }
  }

  /** If never more than k logins of a door are in flight together, its counter never exceeds 4 + k. */
  lemma CounterBound(c: T.Config, run: seq<Action>, door: Door, k: nat)
    requires Runs(c, START, run) && AtMost(c, START, run, door, k)
    ensures Counter(Exec(c, START, run).stores.keys, door) <= 4 + k
  {
    assert Checked(START, door) == {};
    LoadRun(c, START, run, door, k);
  }

  /** A counter expires within 15 minutes, or a request is about to set its expiry. */
  ghost predicate TimedOrPending(w: World, door: Door)
    requires door in w.stores.keys.brute
  {
    var tally := w.stores.keys.brute[door];
    && tally.count >= 1
    && match tally.expires
       case Some(e) => w.stores.now < e <= w.stores.now + T.BRUTE_TTL
       case None => exists r :: ExpiringAt(w, r, door)
  }

  predicate ExpiringAt(w: World, r: Rid, door: Door) {
    r in w.procs && w.procs[r] == LoginExpire(door)
  }

  ghost predicate CountersOk(w: World) {
    forall d :: d in w.stores.keys.brute ==> TimedOrPending(w, d)
  }

  lemma CounterKept(c: T.Config, w: World, a: Action, d: Door)
    requires Enabled(w, a) && d in w.stores.keys.brute && TimedOrPending(w, d) && d in After(c, w, a).stores.keys.brute
    ensures TimedOrPending(After(c, w, a), d)
  {
    var after := After(c, w, a);
    if after.stores.keys.brute[d].expires.None? {
      var r :| ExpiringAt(w, r, d);
      assert ExpiringAt(after, r, d);
    }
  }

  lemma CounterBorn(c: T.Config, w: World, a: Action, d: Door)
    requires Enabled(w, a) && d !in w.stores.keys.brute && d in After(c, w, a).stores.keys.brute
    ensures TimedOrPending(After(c, w, a), d)
  {
    assert ExpiringAt(After(c, w, a), a.rid, d);
  }

  /** Every command leaves each counter with an expiry, or with a request about to set it. */
  lemma CountersStep(c: T.Config, w: World, a: Action)
    requires CountersOk(w) && Enabled(w, a)
    ensures CountersOk(After(c, w, a))
  {
    forall d | d in After(c, w, a).stores.keys.brute ensures TimedOrPending(After(c, w, a), d) {
      if d in w.stores.keys.brute { CounterKept(c, w, a, d); } else { CounterBorn(c, w, a, d); }
    }
  }

  lemma {:induction false} CountersRun(c: T.Config, w: World, run: seq<Action>)
    requires CountersOk(w) && Runs(c, w, run)
    ensures CountersOk(Exec(c, w, run))
    decreases |run|
  {
    if run != [] {
      CountersStep(c, w, run[0]);
      CountersRun(c, After(c, w, run[0]), run[1..]);
    }
  }

  /** No login of the door begins in the run. */
  predicate NoLogins(run: seq<Action>, door: Door) {
    forall i :: 0 <= i < |run| && run[i].Begin? ==> !AtDoor(run[i].pc, door)
  }

  lemma QuietStep(c: T.Config, w: World, a: Action, door: Door)
    requires Enabled(w, a) && InFlight(w, door) == {} && (a.Begin? ==> !AtDoor(a.pc, door))
    ensures InFlight(After(c, w, a), door) == {}
    ensures var after := After(c, w, a).stores.keys.brute;
            door in after ==> door in w.stores.keys.brute && after[door] == w.stores.keys.brute[door]
  {
    forall r | r in w.procs ensures !AtDoor(w.procs[r], door) { assert r !in InFlight(w, door); }
    forall r | r in After(c, w, a).procs ensures !AtDoor(After(c, w, a).procs[r], door) {
    }
  }

  lemma {:induction false} QuietRun(c: T.Config, w: World, run: seq<Action>, door: Door)
    requires Runs(c, w, run) && InFlight(w, door) == {} && NoLogins(run, door)
    ensures var after := Exec(c, w, run).stores.keys.brute;
            door in after ==> door in w.stores.keys.brute && after[door] == w.stores.keys.brute[door]
    decreases |run|
  {
    if run != [] {
      QuietStep(c, w, run[0], door);
      assert NoLogins(run[1..], door) by {
        forall i | 0 <= i < |run[1..]| && run[1..][i].Begin? ensures !AtDoor(run[1..][i].pc, door) {
          assert run[1..][i] == run[i + 1];
        }
      }
      QuietRun(c, After(c, w, run[0]), run[1..], door);
    }
  }

  /** No key stays locked for ever: left alone, a counter is gone 15 minutes later at the latest. */
  lemma UnlocksInTime(c: T.Config, before: seq<Action>, run: seq<Action>, door: Door)
    requires Runs(c, START, before) && Runs(c, Exec(c, START, before), run)
    requires InFlight(Exec(c, START, before), door) == {} && NoLogins(run, door)
    requires Exec(c, Exec(c, START, before), run).stores.now >= Exec(c, START, before).stores.now + T.BRUTE_TTL
    ensures door !in Exec(c, Exec(c, START, before), run).stores.keys.brute
  {
    var w := Exec(c, START, before);
    CountersRun(c, START, before);
    CountersRun(c, w, run);
    QuietRun(c, w, run, door);
    var end := Exec(c, w, run);
    assert forall r :: ExpiringAt(w, r, door) ==> r in InFlight(w, door);
    assert door in w.stores.keys.brute ==> TimedOrPending(w, door);
    assert door in end.stores.keys.brute ==> TimedOrPending(end, door);
  }

  /** The door is locked, its counter has an expiry, and every login of it in flight has yet to look at the counter. */
  predicate Sealed(w: World, door: Door) {
    && Counter(w.stores.keys, door) >= T.BRUTE_LIMIT
    && w.stores.keys.brute[door].expires.Some? && w.stores.now < w.stores.keys.brute[door].expires.value
    && forall r :: r in w.procs && AtDoor(w.procs[r], door) ==> w.procs[r].LoginCheck?
  }

  lemma SealedStep(c: T.Config, w: World, a: Action, door: Door)
    requires Sealed(w, door) && Enabled(w, a)
    ensures var tally, after := w.stores.keys.brute[door], After(c, w, a);
            if after.stores.now < tally.expires.value
            then Sealed(after, door) && after.stores.keys.brute[door] == tally
            else door !in after.stores.keys.brute
  {
  }

  /**
   However many logins arrive meanwhile, such a lock neither grows nor shrinks: the counter stays what it is up to its
   expiry, and the step that reaches the expiry, the k-th, removes it.
   */
  lemma {:induction false} LockEnds(c: T.Config, w: World, run: seq<Action>, door: Door) returns (k: nat)
    requires Runs(c, w, run) && Sealed(w, door)
    ensures var tally, end := w.stores.keys.brute[door], Exec(c, w, run).stores;
            if end.now < tally.expires.value then door in end.keys.brute && end.keys.brute[door] == tally
            else 0 < k <= |run| && Exec(c, w, run[..k - 1]).stores.now < tally.expires.value
                 && door !in Exec(c, w, run[..k]).stores.keys.brute
    decreases |run|
  {
    k := 0;
    if run != [] {
      var next := After(c, w, run[0]);
      SealedStep(c, w, run[0], door);
      if next.stores.now < w.stores.keys.brute[door].expires.value {
        var j := LockEnds(c, next, run[1..], door);
        k := j + 1;
        if j > 0 && j <= |run| - 1 {
          assert run[..k][1..] == run[1..][..j] && run[..k - 1][1..] == run[1..][..j - 1];
        }
      } else {
        k := 1;
        NowMonotone(c, next, run[1..]);
        assert run[..1][1..] == [];
        assert Exec(c, w, run[..1]) == Exec(c, next, run[..1][1..]);
      }
    }
  }

  lemma {:induction false} NowMonotone(c: T.Config, w: World, run: seq<Action>)
    ensures w.stores.now <= Exec(c, w, run).stores.now
    decreases |run|
  {
    if run != [] { NowMonotone(c, After(c, w, run[0]), run[1..]); }
  }

  /** The counter has its expiry, and nobody is about to set another. */
  predicate Settled(w: World, door: Door) {
    && door in w.stores.keys.brute && w.stores.keys.brute[door].count >= 1
    && w.stores.keys.brute[door].expires.Some? && w.stores.now < w.stores.keys.brute[door].expires.value
    && forall r :: r in w.procs ==> w.procs[r] != LoginExpire(door)
  }

  lemma SettledStep(c: T.Config, w: World, a: Action, door: Door)
    requires Settled(w, door) && Enabled(w, a)
    ensures var after := After(c, w, a);
            || door !in after.stores.keys.brute
            || (Settled(after, door) && after.stores.keys.brute[door].expires == w.stores.keys.brute[door].expires)
  {
  }

  lemma {:induction false} SettledEnds(c: T.Config, w: World, run: seq<Action>, door: Door) returns (k: nat)
    requires Runs(c, w, run) && Settled(w, door)
    requires Exec(c, w, run).stores.now >= w.stores.keys.brute[door].expires.value
    ensures k <= |run| && door !in Exec(c, w, run[..k]).stores.keys.brute
    decreases |run|
  {
    var next := After(c, w, run[0]);
    SettledStep(c, w, run[0], door);
    if door !in next.stores.keys.brute {
      k := 1;
      assert Exec(c, w, run[..1]) == Exec(c, next, run[..1][1..]);
    } else {
      var j := SettledEnds(c, next, run[1..], door);
      k := j + 1;
      assert run[..k][1..] == run[1..][..j];
    }
  }

  /**
   In every reachable state a counter, locked or not, whose EXPIRE is not under way is gone within 15 minutes, however
   many logins are in flight or arrive meanwhile: some state of the run, the k-th, has none.
   */
  lemma LockExpires(c: T.Config, before: seq<Action>, run: seq<Action>, door: Door) returns (k: nat)
    requires Runs(c, START, before) && Runs(c, Exec(c, START, before), run)
    requires var w := Exec(c, START, before);
             && door in w.stores.keys.brute
             && (forall r :: r in w.procs ==> w.procs[r] != LoginExpire(door))
             && Exec(c, w, run).stores.now >= w.stores.now + T.BRUTE_TTL
    ensures k <= |run| && door !in Exec(c, Exec(c, START, before), run[..k]).stores.keys.brute
  {
    var w := Exec(c, START, before);
    CountersRun(c, START, before);
    assert TimedOrPending(w, door);
    k := SettledEnds(c, w, run, door);
  }
}
