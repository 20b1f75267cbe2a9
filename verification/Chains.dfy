/** Identity and signatures under interleaving: whom the access tokens of a rotation chain speak for. */
module Chains {
  import opened Prelude
  import opened Uuid
  import opened Accounts
  import opened Keyspace
  import opened Refinement
  import opened Interleaved
  import T = SessionTable

  // ---- the login a token descends from ----

  /** The user and tenant of the login each refresh token descends from. */
  type Origins = map<string, (Uuid, Uuid)>

  function Descend(w: World, a: Action, o: Origins): Origins {
    if a.Proceed? && a.rid in w.procs then
      match w.procs[a.rid]
      case LoginPair(_, user) => o[a.draw := (user.id, user.tenant)]
      case RefreshPair(token, _, _) => if token in o then o[a.draw := o[token]] else o
      case _ => o
    else o
  }

  ghost function Descent(c: T.Config, w: World, run: seq<Action>, o: Origins): Origins
    decreases |run|
  {
    if run == [] then o else Descent(c, After(c, w, run[0]), run[1..], Descend(w, run[0], o))
  }

  predicate Fits(users: Users, id: Uuid, tenant: Uuid) {
    id in users && users[id].tenant == tenant
  }

  /** The payload of `token` names the user and tenant of the login it descends from, and that user has that tenant. */
  predicate Roots(users: Users, o: Origins, token: string, payload: Payload) {
    token in o && o[token] == (payload.user, payload.tenant) && Fits(users, payload.user, payload.tenant)
  }

  predicate PcRooted(users: Users, o: Origins, pc: Pc) {
    match pc
    case LoginClear(door, user) => Fits(users, user.id, user.tenant) && user.tenant == door.0
    case LoginPair(door, user) => Fits(users, user.id, user.tenant) && user.tenant == door.0
    case RefreshDel(token, payload) => Roots(users, o, token, payload)
    case RefreshSRem(token, payload) => Roots(users, o, token, payload)
    case RefreshRead(token, payload) => Roots(users, o, token, payload)
    case RefreshPair(token, payload, user) =>
      Roots(users, o, token, payload) && user.id == payload.user && user.tenant == payload.tenant
    case _ => true
  }

  predicate Rooted(w: World, o: Origins) {
    && o.Keys <= w.stores.drawn
    && (forall t :: t in w.stores.keys.refresh ==> Roots(w.stores.users, o, t, w.stores.keys.refresh[t].payload))
    && (forall r :: r in w.procs ==> PcRooted(w.stores.users, o, w.procs[r]))
  }

  lemma RootsKept(users: Users, after: Users, o: Origins, p: Origins, pc: Pc)
    requires Evolves(users, after) && (forall t :: t in o ==> t in p && p[t] == o[t])
    requires PcRooted(users, o, pc)
    ensures PcRooted(after, p, pc)
  {
  }

  lemma NextRooted(c: T.Config, w: World, rid: Rid, draw: string, o: Origins)
    requires Rooted(w, o) && Enabled(w, Proceed(rid, draw))
    ensures var next := Next(c, w.stores, w.procs[rid], draw);
            next.Some? ==> PcRooted(w.stores.users, o, next.value)
  {
  }

  lemma SetRooted(c: T.Config, w: World, a: Action, o: Origins)
    requires Rooted(w, o) && Enabled(w, a) && a.Proceed? && Sets(w, a, a.draw)
    ensures var after := After(c, w, a).stores;
            Roots(after.users, Descend(w, a, o), a.draw, after.keys.refresh[a.draw].payload)
  {
    assert PcRooted(w.stores.users, o, w.procs[a.rid]);
  }

  lemma KeptRooted(c: T.Config, w: World, a: Action, o: Origins, t: string)
    requires Rooted(w, o) && Enabled(w, a) && !Sets(w, a, t) && t in After(c, w, a).stores.keys.refresh
    ensures var after := After(c, w, a).stores;
            Roots(after.users, Descend(w, a, o), t, after.keys.refresh[t].payload)
  {
    UsersEvolve(c, w, a);
    TokenKept(c, w, a, t);
    assert Roots(w.stores.users, o, t, w.stores.keys.refresh[t].payload);
    assert t in w.stores.drawn;
  }

  lemma TokensRooted(c: T.Config, w: World, a: Action, o: Origins)
    requires Rooted(w, o) && Enabled(w, a)
    ensures var after := After(c, w, a).stores;
            forall t :: t in after.keys.refresh ==>
              Roots(after.users, Descend(w, a, o), t, after.keys.refresh[t].payload)
  {
    var after := After(c, w, a).stores;
    forall t | t in after.keys.refresh ensures Roots(after.users, Descend(w, a, o), t, after.keys.refresh[t].payload) {
      if Sets(w, a, t) { SetRooted(c, w, a, o); } else { KeptRooted(c, w, a, o, t); }
    }
  }

  lemma RootedStep(c: T.Config, w: World, a: Action, o: Origins)
    requires Rooted(w, o) && Enabled(w, a)
    ensures Rooted(After(c, w, a), Descend(w, a, o))
  {
    var after, p := After(c, w, a), Descend(w, a, o);
    UsersEvolve(c, w, a);
    TokensRooted(c, w, a, o);
    if a.Proceed? { NextRooted(c, w, a.rid, a.draw, o); }
    forall r | r in after.procs ensures PcRooted(after.stores.users, p, after.procs[r]) {
      if !a.Begin? || r != a.rid {
        RootsKept(w.stores.users, after.stores.users, o, p, after.procs[r]);
      }
    }
  }

  lemma {:induction false} RootedRun(c: T.Config, w: World, run: seq<Action>, o: Origins)
    requires Rooted(w, o) && Runs(c, w, run)
    ensures Rooted(Exec(c, w, run), Descent(c, w, run, o))
    decreases |run|
  {
    if run != [] {
      RootedStep(c, w, run[0], o);
      RootedRun(c, After(c, w, run[0]), run[1..], Descend(w, run[0], o));
    }
  }

  /** The login has read the row of this user under this tenant and name. */
  predicate Greets(pc: Pc, door: Door, id: Uuid) {
    (pc.LoginClear? || pc.LoginPair?) && pc.door == door && pc.user.id == id
  }

  lemma GreetersStep(c: T.Config, w: World, a: Action, door: Door, id: Uuid, r: Rid)
    requires Enabled(w, a) && (forall q :: q in w.procs ==> !Greets(w.procs[q], door, id))
    requires r in After(c, w, a).procs && Greets(After(c, w, a).procs[r], door, id)
    ensures Named(w.stores.users, id, door.0, door.1)
  {
  }

  lemma {:induction false} NameWitness(c: T.Config, w: World, run: seq<Action>, rid: Rid, door: Door, id: Uuid)
      returns (k: nat)
    requires Runs(c, w, run) && rid in Exec(c, w, run).procs && Greets(Exec(c, w, run).procs[rid], door, id)
    requires forall q :: q in w.procs ==> !Greets(w.procs[q], door, id)
    ensures k <= |run| && Named(Exec(c, w, run[..k]).stores.users, id, door.0, door.1)
    decreases |run|
  {
    var next := After(c, w, run[0]);
    if r :| r in next.procs && Greets(next.procs[r], door, id) {
      GreetersStep(c, w, run[0], door, id, r);
      k := 0;
    } else {
      var j := NameWitness(c, next, run[1..], rid, door, id);
      k := j + 1;
      assert run[..k][1..] == run[1..][..j];
    }
  }

  /**
   Under every interleaving, whatever renaming, deletion or reuse of a name happens in between: a pair returned by a
   login is for the tenant that was asked for and for a user that was live under the asked name in a state of the run,
   the k-th; and a pair returned by a refresh carries the user and tenant of the payload it read, which are those of
   the login at the root of the token's chain.
   */
  lemma IdentityFixed(c: T.Config, run: seq<Action>, rid: Rid, draw: string) returns (k: nat)
    requires Runs(c, START, run) && Enabled(Exec(c, START, run), Proceed(rid, draw))
    requires var w := Exec(c, START, run);
             Next(c, w.stores, w.procs[rid], draw).None? && Answer(c, w.stores, w.procs[rid], draw).Pair?
    ensures var w := Exec(c, START, run);
            var o := Descent(c, START, run, map[]);
            var access := Answer(c, w.stores, w.procs[rid], draw).pair.access;
            match w.procs[rid]
            case LoginPair(door, _) =>
              access.tenant == door.0 &&
              k <= |run| && Named(Exec(c, START, run[..k]).stores.users, access.subject, door.0, door.1)
            case RefreshPair(token, payload, _) =>
              access.subject == payload.user && access.tenant == payload.tenant
              && token in o && o[token] == (access.subject, access.tenant)
            case _ => false
  {
    RootedRun(c, START, run, map[]);
    var w := Exec(c, START, run);
    var pc := w.procs[rid];
    assert PcRooted(w.stores.users, Descent(c, START, run, map[]), pc);
    k := 0;
    if pc.LoginPair? {
      k := NameWitness(c, START, run, rid, pc.door, pc.user.id);
    }
  }

  /** A refresh that finds its user finds it in the payload's tenant: the mismatch branch stays dead. */
  lemma TenantNeverDiffers(c: T.Config, run: seq<Action>, rid: Rid)
    requires Runs(c, START, run) && rid in Exec(c, START, run).procs && Exec(c, START, run).procs[rid].RefreshRead?
    ensures var w := Exec(c, START, run);
            var payload := w.procs[rid].payload;
            Live(w.stores.users, payload.user) ==> RowOf(w.stores.users, payload.user).tenant == payload.tenant
  {
    RootedRun(c, START, run, map[]);
    var w := Exec(c, START, run);
    assert PcRooted(w.stores.users, Descent(c, START, run, map[]), w.procs[rid]);
  }

  // ---- where signatures come from ----

  /** The database holds exactly this subject, live, with this tenant and these roles. */
  predicate Attests(users: Users, claims: T.Claims) {
    && Live(users, claims.subject)
    && RowOf(users, claims.subject).tenant == claims.tenant
    && RowOf(users, claims.subject).roles == claims.roles
  }

  /** The request has read such a row and will sign from it. */
  predicate Speaks(pc: Pc, claims: T.Claims) {
    (pc.LoginClear? || pc.LoginPair? || pc.RefreshPair?)
    && pc.user.id == claims.subject && pc.user.tenant == claims.tenant && pc.user.roles == claims.roles
  }

  lemma SpeakersStep(c: T.Config, w: World, a: Action, claims: T.Claims, r: Rid)
    requires Enabled(w, a) && (forall q :: q in w.procs ==> !Speaks(w.procs[q], claims))
    requires r in After(c, w, a).procs && Speaks(After(c, w, a).procs[r], claims)
    ensures Attests(w.stores.users, claims)
  {
  }

  lemma {:induction false} Witness(c: T.Config, w: World, run: seq<Action>, claims: T.Claims) returns (k: nat)
    requires Runs(c, w, run) && claims in Exec(c, w, run).stores.signed && claims !in w.stores.signed
    requires forall q :: q in w.procs ==> !Speaks(w.procs[q], claims)
    ensures k <= |run| && Attests(Exec(c, w, run[..k]).stores.users, claims)
    decreases |run|
  {
    var next := After(c, w, run[0]);
    if r :| r in next.procs && Speaks(next.procs[r], claims) {
      SpeakersStep(c, w, run[0], claims, r);
      k := 0;
    } else {
      var j := Witness(c, next, run[1..], claims);
      k := j + 1;
      assert run[..k][1..] == run[1..][..j];
    }
  }

  /**
   Under every interleaving each signed token goes back to a state of the run in which its subject was live and had
   exactly its tenant and roles.
   */
  lemma SignatureWitness(c: T.Config, run: seq<Action>, claims: T.Claims) returns (k: nat)
    requires Runs(c, START, run) && claims in Exec(c, START, run).stores.signed
    ensures k <= |run| && Attests(Exec(c, START, run[..k]).stores.users, claims)
  {
    k := Witness(c, START, run, claims);
  }
}
