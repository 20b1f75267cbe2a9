/**
 What interleaving really allows.  The index invariant needs its exception for deleted users, and one refresh token
 can be redeemed twice, because GET and DEL are two commands: both are shown by runs of two requests.
 */
module Races {
  import opened Prelude
  import opened Uuid
  import opened Accounts
  import opened Keyspace
  import opened Refinement
  import opened Interleaved
  import T = SessionTable

  /** The requests that return in the run, in order, each with its reply. */
  ghost function Answers(c: T.Config, w: World, run: seq<Action>): seq<(Rid, T.Reply)>
    decreases |run|
  {
    if run == [] then []
    else AnswerOf(c, w, run[0]) + Answers(c, After(c, w, run[0]), run[1..])
  }

  ghost function AnswerOf(c: T.Config, w: World, a: Action): seq<(Rid, T.Reply)> {
    if a.Proceed? && a.rid in w.procs && Next(c, w.stores, w.procs[a.rid], a.draw).None?
    then [(a.rid, Answer(c, w.stores, w.procs[a.rid], a.draw))]
    else []
  }

  ghost predicate Leads(c: T.Config, w: World, run: seq<Action>, answers: seq<(Rid, T.Reply)>, end: World) {
    Runs(c, w, run) && Answers(c, w, run) == answers && Exec(c, w, run) == end
  }

  /** A world with at most two requests, numbered 1 and 2; None has not begun or has returned. */
  function Duo(st: Stores, p: Option<Pc>, q: Option<Pc>): World {
    World(st, match (p, q)
              case (None, None) => map[]
              case (Some(x), None) => map[1 := x]
              case (None, Some(y)) => map[2 := y]
              case (Some(x), Some(y)) => map[1 := x, 2 := y])
  }

  lemma Onward(c: T.Config, w: World, a: Action, rest: seq<Action>, answers: seq<(Rid, T.Reply)>, end: World)
    requires Enabled(w, a) && Leads(c, After(c, w, a), rest, answers, end)
    ensures Leads(c, w, [a] + rest, AnswerOf(c, w, a) + answers, end)
  {
    assert ([a] + rest)[1..] == rest;
  }

  type Side = n: nat | 1 <= n <= 2 witness 1

  /** The same world seen from one of the two requests. */
  function Seen(st: Stores, r: Side, mine: Option<Pc>, other: Option<Pc>): World {
    if r == 1 then Duo(st, mine, other) else Duo(st, other, mine)
  }

  lemma SeatTaken(st: Stores, after: Stores, r: Side, pc: Pc, next: Option<Pc>, other: Option<Pc>)
    ensures var procs := Seen(st, r, Some(pc), other).procs;
            r in procs && procs[r] == pc
            && (match next case Some(x) => procs[r := x] case None => procs - {r}) == Seen(after, r, next, other).procs
  {
  }

  /** One of the two requests issues its next command. */
  lemma Turn(c: T.Config, st: Stores, r: Side, pc: Pc, other: Option<Pc>, draw: string,
             rest: seq<Action>, answers: seq<(Rid, T.Reply)>, end: World)
      returns (run: seq<Action>, all: seq<(Rid, T.Reply)>)
    requires May(st, pc, draw)
    requires Leads(c, Seen(Effect(c, st, pc, draw), r, Next(c, st, pc, draw), other), rest, answers, end)
    ensures run == [Proceed(r, draw)] + rest
    ensures all == (if Next(c, st, pc, draw).None? then [(r, Answer(c, st, pc, draw))] else []) + answers
    ensures Leads(c, Seen(st, r, Some(pc), other), run, all, end)
  {
    var w := Seen(st, r, Some(pc), other);
    SeatTaken(st, Effect(c, st, pc, draw), r, pc, Next(c, st, pc, draw), other);
    Onward(c, w, Proceed(r, draw), rest, answers, end);
    run, all := [Proceed(r, draw)] + rest, AnswerOf(c, w, Proceed(r, draw)) + answers;
  }

  /** One of the two requests begins. */
  lemma Start(c: T.Config, st: Stores, r: Side, pc: Pc, other: Option<Pc>,
              rest: seq<Action>, answers: seq<(Rid, T.Reply)>, end: World)
      returns (run: seq<Action>)
    requires Initial(pc) && Leads(c, Seen(st, r, Some(pc), other), rest, answers, end)
    ensures run == [Begin(r, pc)] + rest
    ensures Leads(c, Seen(st, r, None, other), run, answers, end)
  {
    var w := Seen(st, r, None, other);
    assert After(c, w, Begin(r, pc)).procs == Seen(st, r, Some(pc), other).procs;
    Onward(c, w, Begin(r, pc), rest, answers, end);
    run := [Begin(r, pc)] + rest;
  }

  // ---- a late pipeline ----

  /** A deletion reads the index, the pipeline of an earlier login follows, then the deletion drops the index. */
  lemma LatePair(c: T.Config, st: Stores, door: Door, user: User, jti: string)
      returns (run: seq<Action>, answers: seq<(Rid, T.Reply)>, end: Stores)
    requires Live(st.users, user.id) && SMembers(st.keys, user.id) == {} && jti !in st.drawn
    ensures Leads(c, Duo(st, Some(LoginPair(door, user)), Some(DeleteRow(user.id))), run, answers, World(end, map[]))
    ensures jti in end.keys.refresh && end.keys.refresh[jti].payload.user == user.id
    ensures Deleted(end.users, user.id) && !Listed(end.keys, jti)
  {
    var pair := LoginPair(door, user);
    var gone := Effect(c, st, DeleteRow(user.id), "");
    var paired := Effect(c, gone, pair, jti);
    end := Effect(c, paired, RevokeDel(user.id, {}), "");
    var last := World(end, map[]);
    run, answers := [], [];
    run, answers := Turn(c, paired, 2, RevokeDel(user.id, {}), None, "", run, answers, last);
    run, answers := Turn(c, gone, 1, pair, Some(RevokeDel(user.id, {})), jti, run, answers, last);
    run, answers := Turn(c, gone, 2, RevokeList(user.id), Some(pair), "", run, answers, last);
    run, answers := Turn(c, st, 2, DeleteRow(user.id), Some(pair), "", run, answers, last);
  }

  /** A user is created, and a login of that user gets as far as its pipeline. */
  lemma Prologue(c: T.Config, id: Uuid, door: Door, plain: string, hash: string,
                 rest: seq<Action>, later: seq<(Rid, T.Reply)>, end: World)
      returns (run: seq<Action>)
    requires c.verify(plain, hash) == Ok(true)
    requires var st := Founded(id, door, hash);
             Leads(c, Duo(st, Some(LoginPair(door, RowOf(st.users, id))), None), rest, later, end)
    ensures Leads(c, START, run, later, end)
  {
    var create := Change(T.Create(id, Account(door.0, door.1, None, hash, {}, false)));
    var st := Founded(id, door, hash);
    var answers;
    run, answers := LoginSteps(c, st, id, door, plain, rest, later, end);
    assert After(c, START, create) == World(st, map[]);
    Onward(c, START, create, run, answers, end);
    run := [create] + run;
  }

  /** One user and nothing else. */
  function Founded(id: Uuid, door: Door, hash: string): Stores {
    Stores(0, map[id := Account(door.0, door.1, None, hash, {}, false)], NO_KEYS, {}, {})
  }

  lemma LoginSteps(c: T.Config, st: Stores, id: Uuid, door: Door, plain: string,
                   rest: seq<Action>, later: seq<(Rid, T.Reply)>, end: World)
      returns (run: seq<Action>, answers: seq<(Rid, T.Reply)>)
    requires UniqueIndexes(st.users) && Named(st.users, id, door.0, door.1) && door !in st.keys.brute
    requires c.verify(plain, st.users[id].hash) == Ok(true)
    requires Leads(c, Duo(st, Some(LoginPair(door, RowOf(st.users, id))), None), rest, later, end)
    ensures answers == later && Leads(c, World(st, map[]), run, answers, end)
  {
    FindByNameUnique(st.users, door.0, door.1, id);
    var user := RowOf(st.users, id);
    assert Effect(c, st, LoginClear(door, user), "") == st;
    run, answers := Turn(c, st, 1, LoginClear(door, user), None, "", rest, later, end);
    run, answers := Turn(c, st, 1, LoginRead(door, plain), None, "", run, answers, end);
    run, answers := Turn(c, st, 1, LoginCheck(door, plain), None, "", run, answers, end);
    run := Start(c, st, 1, LoginCheck(door, plain), None, run, answers, end);
  }

  /** From the first start on: a live refresh token of a deleted user that no index set lists. */
  lemma LateTokenSurvives(c: T.Config, id: Uuid, door: Door, plain: string, hash: string, jti: string)
      returns (run: seq<Action>)
    requires c.verify(plain, hash) == Ok(true)
    ensures Runs(c, START, run)
    ensures var end := Exec(c, START, run).stores;
            jti in end.keys.refresh && !Listed(end.keys, jti) && Deleted(end.users, end.keys.refresh[jti].payload.user)
  {
    var st := Founded(id, door, hash);
    var user := RowOf(st.users, id);
    var answers, end;
    run, answers, end := LatePair(c, st, door, user, jti);
    run := Start(c, st, 2, DeleteRow(id), Some(LoginPair(door, user)), run, answers, World(end, map[]));
    run := Prologue(c, id, door, plain, hash, run, answers, World(end, map[]));
  }

  // ---- a logout under way ----

  /**
   A deletion runs from start to end while a logout stands between its SREM and its DEL: when it returns, the token is
   still there.
   */
  lemma LogoutLingers(c: T.Config, id: Uuid, door: Door, plain: string, hash: string, jti: string)
      returns (run: seq<Action>)
    requires c.verify(plain, hash) == Ok(true)
    ensures Runs(c, START, run)
    ensures var end := Exec(c, START, run);
            && jti in end.stores.keys.refresh && end.stores.keys.refresh[jti].payload.user == id
            && Deleted(end.stores.users, id)
            && end.procs == map[1 := LogoutDel(jti, end.stores.keys.refresh[jti].payload)]
  {
    var st := Founded(id, door, hash);
    var user := RowOf(st.users, id);
    var paired := WithPair(c, st, user, jti);
    var payload := paired.keys.refresh[jti].payload;
    var end;
    var answers;
    run, answers, end := DeletionMeanwhile(c, paired, id, jti);
    run, answers := Turn(c, st, 1, LoginPair(door, user), None, jti, run, answers, end);
    run := Prologue(c, id, door, plain, hash, run, answers, end);
  }

  lemma DeletionMeanwhile(c: T.Config, st: Stores, id: Uuid, token: string)
      returns (run: seq<Action>, answers: seq<(Rid, T.Reply)>, end: World)
    requires Live(st.users, id) && token in st.keys.refresh && st.keys.refresh[token].payload.user == id
    requires SMembers(st.keys, id) == {token}
    ensures Leads(c, World(st, map[]), run, answers, end)
    ensures token in end.stores.keys.refresh && end.stores.keys.refresh[token] == st.keys.refresh[token]
    ensures Deleted(end.stores.users, id)
    ensures end.procs == map[1 := LogoutDel(token, st.keys.refresh[token].payload)]
  {
    var payload := st.keys.refresh[token].payload;
    var removed := Effect(c, st, LogoutSRem(token, payload), "");
    var gone := Effect(c, removed, DeleteRow(id), "");
    var del := Some(LogoutDel(token, payload));
    end := Duo(Effect(c, gone, RevokeDel(id, {}), ""), del, None);
    run, answers := Turn(c, gone, 2, RevokeDel(id, {}), del, "", [], [], end);
    run, answers := Turn(c, gone, 2, RevokeList(id), del, "", run, answers, end);
    run, answers := Turn(c, removed, 2, DeleteRow(id), del, "", run, answers, end);
    run := Start(c, removed, 2, DeleteRow(id), del, run, answers, end);
    run, answers := Turn(c, st, 1, LogoutSRem(token, payload), None, "", run, answers, end);
    run, answers := Turn(c, st, 1, LogoutGet(token), None, "", run, answers, end);
    run := Start(c, st, 1, LogoutGet(token), None, run, answers, end);
  }

  // ---- a set that lapses early ----

  /**
   When EXPIRE drops a fraction of the lifetime, the index set lapses before the token: a run from the start leaves a
   live token of a live user unlisted, with no request in flight.
   */
  lemma IndexLapses(c: T.Config, id: Uuid, door: Door, plain: string, hash: string, jti: string)
      returns (run: seq<Action>)
    requires Whole(c.refreshTtl) < c.refreshTtl && c.verify(plain, hash) == Ok(true)
    ensures Runs(c, START, run)
    ensures var end := Exec(c, START, run);
            && jti in end.stores.keys.refresh && !Listed(end.stores.keys, jti)
            && Live(end.stores.users, end.stores.keys.refresh[jti].payload.user) && end.procs == map[]
  {
    var st := Founded(id, door, hash);
    var user := RowOf(st.users, id);
    var paired := WithPair(c, st, user, jti);
    var end := World(Later(paired, Whole(c.refreshTtl)), map[]);
    Onward(c, World(paired, map[]), Pass(Whole(c.refreshTtl)), [], [], end);
    var answers;
    run, answers := Turn(c, st, 1, LoginPair(door, user), None, jti, [Pass(Whole(c.refreshTtl))] + [], [], end);
    run := Prologue(c, id, door, plain, hash, run, answers, end);
  }

  // ---- one token, two redemptions ----

  /** The stores after a refresh that found `token` has gone on to the end alone. */
  function Redeemed(c: T.Config, st: Stores, token: string, payload: Payload, user: User, jti: string): Stores {
    WithPair(c, st.(keys := DropToken(st.keys, token, payload.user)), user, jti)
  }

  /** The pair a refresh returns for `user` when it draws `jti`. */
  function Reissued(c: T.Config, st: Stores, user: User, jti: string): T.Reply {
    T.Pair(T.TokenPair(T.Generate(c, user, st.now), jti, c.accessTtl / 1000))
  }

  /** The commands of a refresh after its GET. */
  function AfterGet(r: Side, jti: string): seq<Action> {
    [Proceed(r, ""), Proceed(r, ""), Proceed(r, ""), Proceed(r, jti)]
  }

  /** Once the GET has found the token, nothing asks again whether it is still there. */
  lemma Redeems(c: T.Config, st: Stores, r: Side, token: string, payload: Payload, other: Option<Pc>, jti: string,
                rest: seq<Action>, later: seq<(Rid, T.Reply)>, end: World)
      returns (run: seq<Action>, answers: seq<(Rid, T.Reply)>)
    requires Live(st.users, payload.user) && st.users[payload.user].tenant == payload.tenant && jti !in st.drawn
    requires var after := Redeemed(c, st, token, payload, RowOf(st.users, payload.user), jti);
             Leads(c, Seen(after, r, None, other), rest, later, end)
    ensures run == AfterGet(r, jti) + rest
    ensures answers == [(r, Reissued(c, st, RowOf(st.users, payload.user), jti))] + later
    ensures Leads(c, Seen(st, r, Some(RefreshDel(token, payload)), other), run, answers, end)
  {
    var user := RowOf(st.users, payload.user);
    var st1 := Effect(c, st, RefreshDel(token, payload), "");
    var st2 := Effect(c, st1, RefreshSRem(token, payload), "");
    run, answers := Turn(c, st2, r, RefreshPair(token, payload, user), other, jti, rest, later, end);
    run, answers := Turn(c, st2, r, RefreshRead(token, payload), other, "", run, answers, end);
    run, answers := Turn(c, st1, r, RefreshSRem(token, payload), other, "", run, answers, end);
    run, answers := Turn(c, st, r, RefreshDel(token, payload), other, "", run, answers, end);
    assert run == AfterGet(r, jti) + rest;
  }

  /** Two refreshes of one token begin, and each issues its GET. */
  function Opening(token: string): seq<Action> {
    [Begin(1, RefreshGet(token)), Begin(2, RefreshGet(token)), Proceed(1, ""), Proceed(2, "")]
  }

  lemma BothGet(c: T.Config, st: Stores, token: string, rest: seq<Action>, answers: seq<(Rid, T.Reply)>, end: World)
    requires token in st.keys.refresh
    requires var del := Some(RefreshDel(token, st.keys.refresh[token].payload));
             Leads(c, Duo(st, del, del), rest, answers, end)
    ensures Leads(c, World(st, map[]), Opening(token) + rest, answers, end)
  {
    var get, del := RefreshGet(token), RefreshDel(token, st.keys.refresh[token].payload);
    var run, all := Turn(c, st, 2, get, Some(del), "", rest, answers, end);
    run, all := Turn(c, st, 1, get, Some(get), "", run, all, end);
    run := Start(c, st, 2, get, Some(get), run, all, end);
    run := Start(c, st, 1, get, None, run, all, end);
    assert run == Opening(token) + rest;
  }

  /**
   Any live token of any good state: two refreshes of it that both GET it before either DEL both answer with a pair
   for its owner.
   */
  lemma RedeemedTwice(c: T.Config, st: Stores, token: string, a: string, b: string) returns (run: seq<Action>)
    requires StoresOk(c, st) && token in st.keys.refresh && a !in st.drawn && b !in st.drawn && a != b
    ensures run == Opening(token) + (AfterGet(1, a) + AfterGet(2, b))
    ensures Runs(c, World(st, map[]), run)
    ensures Live(st.users, st.keys.refresh[token].payload.user)
    ensures var user := RowOf(st.users, st.keys.refresh[token].payload.user);
            Answers(c, World(st, map[]), run) == [(1, Reissued(c, st, user, a)), (2, Reissued(c, st, user, b))]
  {
    var payload := st.keys.refresh[token].payload;
    assert T.SessionOk(c, Abstract(st), token);
    var user := RowOf(st.users, payload.user);
    var once := Redeemed(c, st, token, payload, user, a);
    var end := World(Redeemed(c, once, token, payload, user, b), map[]);
    var answers;
    run, answers := Redeems(c, once, 2, token, payload, None, b, [], [], end);
    run, answers := Redeems(c, st, 1, token, payload, Some(RefreshDel(token, payload)), a, run, answers, end);
    BothGet(c, st, token, run, answers, end);
    run := Opening(token) + run;
  }
}
