/**
 The two levels agree: a request of the interleaved system that runs from start to finish with nothing in between
 is exactly the atomic request of the session table, whatever it draws and in whatever order it revokes.
 */
module Alone {
  import opened Prelude
  import opened Uuid
  import opened Accounts
  import opened Keyspace
  import opened Refinement
  import opened Interleaved
  import T = SessionTable

  /** From the point `pc` the request returns `reply` and leaves the stores `end`; `draws` has one draw a command. */
  ghost predicate Completes(c: T.Config, st: Stores, pc: Pc, draws: seq<string>, end: Stores, reply: T.Reply)
    decreases |draws|
  {
    && draws != []
    && May(st, pc, draws[0])
    && match Next(c, st, pc, draws[0])
       case None => |draws| == 1 && end == Effect(c, st, pc, draws[0]) && reply == Answer(c, st, pc, draws[0])
       case Some(next) => Completes(c, Effect(c, st, pc, draws[0]), next, draws[1..], end, reply)
  }

  function Last(draws: seq<string>): string
    requires draws != []
  {
    draws[|draws| - 1]
  }

  // ---- completions and runs ----

  function Steps(rid: Rid, draws: seq<string>): seq<Action> {
    if draws == [] then [] else [Proceed(rid, draws[0])] + Steps(rid, draws[1..])
  }

  lemma OneStep(c: T.Config, w: World, rid: Rid, draws: seq<string>)
    requires draws != []
    ensures Runs(c, w, Steps(rid, draws)) <==>
              Enabled(w, Proceed(rid, draws[0])) && Runs(c, After(c, w, Proceed(rid, draws[0])), Steps(rid, draws[1..]))
    ensures Exec(c, w, Steps(rid, draws)) == Exec(c, After(c, w, Proceed(rid, draws[0])), Steps(rid, draws[1..]))
  {
    assert Steps(rid, draws)[1..] == Steps(rid, draws[1..]);
  }

  /** A completion is a run in which only that request moves, whoever else is standing by. */
  lemma {:induction false} CompletesRuns(c: T.Config, w: World, rid: Rid, draws: seq<string>, end: Stores,
                                         reply: T.Reply)
    requires rid in w.procs && Completes(c, w.stores, w.procs[rid], draws, end, reply)
    ensures Runs(c, w, Steps(rid, draws))
    ensures Exec(c, w, Steps(rid, draws)) == World(end, w.procs - {rid})
    decreases |draws|
  {
    var next := After(c, w, Proceed(rid, draws[0]));
    OneStep(c, w, rid, draws);
    if rid in next.procs {
      CompletesRuns(c, next, rid, draws[1..], end, reply);
      assert next.procs - {rid} == w.procs - {rid};
    } else {
      assert draws[1..] == [];
    }
  }

  /** And every run in which only that request moves, until it has returned, is such a completion. */
  lemma {:induction false} RunsComplete(c: T.Config, w: World, rid: Rid, draws: seq<string>) returns (reply: T.Reply)
    requires rid in w.procs && Runs(c, w, Steps(rid, draws)) && rid !in Exec(c, w, Steps(rid, draws)).procs
    ensures Completes(c, w.stores, w.procs[rid], draws, Exec(c, w, Steps(rid, draws)).stores, reply)
    decreases |draws|
  {
    var next := After(c, w, Proceed(rid, draws[0]));
    OneStep(c, w, rid, draws);
    if rid in next.procs {
      reply := RunsComplete(c, next, rid, draws[1..]);
    } else {
      reply := Answer(c, w.stores, w.procs[rid], draws[0]);
      if draws[1..] != [] {
        OneStep(c, next, rid, draws[1..]);
      }
    }
  }

  /** The commands still ahead, the loop of a revocation counted as one. */
  function Ahead(pc: Pc): nat {
    match pc
    case LoginCheck(_, _) => 4
    case LoginRead(_, _) => 3
    case LoginIncr(_) => 2
    case LoginExpire(_) => 1
    case LoginClear(_, _) => 2
    case LoginPair(_, _) => 1
    case RefreshGet(_) => 5
    case RefreshDel(_, _) => 4
    case RefreshSRem(_, _) => 3
    case RefreshRead(_, _) => 2
    case RefreshPair(_, _, _) => 1
    case LogoutGet(_) => 3
    case LogoutSRem(_, _) => 2
    case LogoutDel(_, _) => 1
    case DeleteRow(_) => 3
    case RevokeList(_) => 2
    case RevokeDel(_, _) => 1
  }

  function Left(pc: Pc): set<string> { if pc.RevokeDel? then pc.left else {} }

  lemma AheadFalls(c: T.Config, st: Stores, pc: Pc, draw: string)
    requires Next(c, st, pc, draw).Some? && (Left(pc) != {} ==> draw in Left(pc))
    ensures var next := Next(c, st, pc, draw).value;
            Ahead(next) < Ahead(pc) || (Ahead(next) == Ahead(pc) && |Left(next)| < |Left(pc)|)
  {
  }

  /** A request left alone always comes to its end, whatever fresh token it would draw. */
  lemma {:induction false} CanComplete(c: T.Config, st: Stores, pc: Pc, jti: string)
      returns (draws: seq<string>, end: Stores, reply: T.Reply)
    requires jti !in st.drawn
    ensures Completes(c, st, pc, draws, end, reply)
    decreases Ahead(pc), |Left(pc)|
  {
    var draw := jti;
    if Left(pc) != {} {
      draw :| draw in Left(pc);
    }
    match Next(c, st, pc, draw)
    case None => draws, end, reply := [draw], Effect(c, st, pc, draw), Answer(c, st, pc, draw);
    case Some(next) =>
      AheadFalls(c, st, pc, draw);
      var rest;
      rest, end, reply := CanComplete(c, Effect(c, st, pc, draw), next, jti);
      draws := [draw] + rest;
      assert draws[1..] == rest;
  }

  // ---- login ----

  lemma CountAlone(c: T.Config, st: Stores, door: Door, draws: seq<string>, end: Stores, reply: T.Reply)
    requires StoresOk(c, st) && T.Failures(Abstract(st), door) < T.BRUTE_LIMIT
    requires Completes(c, st, LoginIncr(door), draws, end, reply)
    ensures StoresOk(c, end)
    ensures Abstract(end) == T.CountFailure(Abstract(st), door) && reply == T.Failed(T.InvalidCredentials)
  {
    FailureCounted(c, st, door);
    if Counter(st.keys, door) == 0 {
      assert Completes(c, Effect(c, st, LoginIncr(door), draws[0]), LoginExpire(door), draws[1..], end, reply);
    }
  }

  lemma PairAlone(c: T.Config, st: Stores, pc: Pc, draws: seq<string>, end: Stores, reply: T.Reply)
    requires StoresOk(c, st) && Pairing(pc) && Completes(c, st, pc, draws, end, reply)
    requires Live(st.users, pc.user.id) && pc.user == RowOf(st.users, pc.user.id)
    ensures StoresOk(c, end) && (Abstract(end), reply) == T.Issue(c, Abstract(st), pc.user, Last(draws))
  {
    PairStored(c, st, pc.user, draws[0]);
  }

  lemma ClearAlone(c: T.Config, st: Stores, door: Door, user: User, draws: seq<string>, end: Stores, reply: T.Reply)
    requires StoresOk(c, st) && Completes(c, st, LoginClear(door, user), draws, end, reply)
    requires Live(st.users, user.id) && user == RowOf(st.users, user.id)
    ensures StoresOk(c, end)
    ensures var s := Abstract(st);
            (Abstract(end), reply) == T.Issue(c, s.(windows := s.windows - {door}), user, Last(draws))
  {
    FailuresCleared(c, st, door);
    PairAlone(c, Effect(c, st, LoginClear(door, user), draws[0]), LoginPair(door, user), draws[1..], end, reply);
  }

  lemma ReadAlone(c: T.Config, st: Stores, door: Door, plain: string, draws: seq<string>, end: Stores, reply: T.Reply)
    requires StoresOk(c, st) && T.Failures(Abstract(st), door) < T.BRUTE_LIMIT
    requires Completes(c, st, LoginRead(door, plain), draws, end, reply)
    ensures StoresOk(c, end)
    ensures (Abstract(end), reply) == T.Login(c, Abstract(st), door.0, door.1, plain, Last(draws))
  {
    T.FoundByName(Abstract(st), door.0, door.1);
    var next := Next(c, st, LoginRead(door, plain), draws[0]);
    if next.Some? {
      assert Completes(c, st, next.value, draws[1..], end, reply);
      if next.value.LoginIncr? {
        CountAlone(c, st, door, draws[1..], end, reply);
      } else {
        ClearAlone(c, st, door, next.value.user, draws[1..], end, reply);
      }
    }
  }

  /** Undisturbed, a login is the login of the table: same reply, same stores. */
  lemma LoginAlone(c: T.Config, st: Stores, door: Door, plain: string, draws: seq<string>, end: Stores, reply: T.Reply)
    requires StoresOk(c, st) && Completes(c, st, LoginCheck(door, plain), draws, end, reply)
    ensures StoresOk(c, end)
    ensures (Abstract(end), reply) == T.Login(c, Abstract(st), door.0, door.1, plain, Last(draws))
  {
    assert Counter(st.keys, door) == T.Failures(Abstract(st), door);
    if Counter(st.keys, door) < T.BRUTE_LIMIT {
      assert Completes(c, st, LoginRead(door, plain), draws[1..], end, reply);
      ReadAlone(c, st, door, plain, draws[1..], end, reply);
    }
  }

  // ---- refresh ----

  lemma ReissueAlone(c: T.Config, st: Stores, token: string, payload: Payload, draws: seq<string>, end: Stores,
                     reply: T.Reply)
    requires StoresOk(c, st) && Completes(c, st, RefreshRead(token, payload), draws, end, reply)
    ensures StoresOk(c, end)
    ensures var refused := (Abstract(st), T.Failed(T.InvalidRefreshToken));
            (Abstract(end), reply) ==
              match FindById(st.users, payload.user)
              case Some(user) =>
                if user.tenant == payload.tenant then T.Issue(c, Abstract(st), user, Last(draws)) else refused
              case None => refused
  {
    var next := Next(c, st, RefreshRead(token, payload), draws[0]);
    if next.Some? {
      PairAlone(c, st, next.value, draws[1..], end, reply);
    }
  }

  lemma SpendAlone(c: T.Config, st: Stores, token: string, payload: Payload, draws: seq<string>, end: Stores,
                   reply: T.Reply)
    requires Completes(c, st, RefreshDel(token, payload), draws, end, reply)
    ensures |draws| > 2
    ensures Completes(c, st.(keys := DropToken(st.keys, token, payload.user)), RefreshRead(token, payload), draws[2..],
                      end, reply)
  {
    var st1 := Effect(c, st, RefreshDel(token, payload), draws[0]);
    assert Completes(c, st1, RefreshSRem(token, payload), draws[1..], end, reply);
    assert Completes(c, Effect(c, st1, RefreshSRem(token, payload), draws[1]), RefreshRead(token, payload),
                     draws[1..][1..], end, reply);
    assert draws[1..][1..] == draws[2..];
  }

  /** Undisturbed, a refresh is the refresh of the table. */
  lemma RefreshAlone(c: T.Config, st: Stores, token: string, draws: seq<string>, end: Stores, reply: T.Reply)
    requires StoresOk(c, st) && Completes(c, st, RefreshGet(token), draws, end, reply)
    ensures StoresOk(c, end) && (Abstract(end), reply) == T.Refresh(c, Abstract(st), token, Last(draws))
  {
    if token in st.keys.refresh {
      var payload := st.keys.refresh[token].payload;
      TokenDropped(c, st, token);
      SpendAlone(c, st, token, payload, draws[1..], end, reply);
      var dropped := st.(keys := DropToken(st.keys, token, payload.user));
      ReissueAlone(c, dropped, token, payload, draws[1..][2..], end, reply);
    }
  }

  // ---- logout ----

  lemma ForgetAlone(c: T.Config, st: Stores, token: string, payload: Payload, draws: seq<string>, end: Stores,
                    reply: T.Reply)
    requires Completes(c, st, LogoutSRem(token, payload), draws, end, reply)
    ensures end == st.(keys := DropToken(st.keys, token, payload.user)) && reply == T.Done
  {
    DropCommutes(st.keys, token, payload.user);
    assert Completes(c, Effect(c, st, LogoutSRem(token, payload), draws[0]), LogoutDel(token, payload), draws[1..],
                     end, reply);
  }

  /** Undisturbed, a logout is the logout of the table. */
  lemma LogoutAlone(c: T.Config, st: Stores, token: string, draws: seq<string>, end: Stores, reply: T.Reply)
    requires StoresOk(c, st) && Completes(c, st, LogoutGet(token), draws, end, reply)
    ensures StoresOk(c, end) && (Abstract(end), reply) == T.Logout(Abstract(st), token)
  {
    if token in st.keys.refresh {
      TokenDropped(c, st, token);
      ForgetAlone(c, st, token, st.keys.refresh[token].payload, draws[1..], end, reply);
    } else {
      assert Abstract(st).sessions - {token} == Abstract(st).sessions;
    }
  }

  // ---- deletion ----

  /** The revocation loop ends the same whichever order the members come in. */
  lemma {:induction false} RevokeAlone(c: T.Config, st: Stores, id: Uuid, left: set<string>,
                                       draws: seq<string>, end: Stores, reply: T.Reply)
    requires Completes(c, st, RevokeDel(id, left), draws, end, reply)
    ensures end == st.(keys := Del(DelTokens(st.keys, left), IndexKey(id))) && reply == T.Done
    decreases |draws|
  {
    if left == {} {
      assert st.keys.refresh - left == st.keys.refresh;
    } else {
      var st1 := Effect(c, st, RevokeDel(id, left), draws[0]);
      RevokeAlone(c, st1, id, left - {draws[0]}, draws[1..], end, reply);
      assert st1.keys.refresh - (left - {draws[0]}) == st.keys.refresh - left;
    }
  }

  /** Undisturbed, a deletion with its revocation is the deletion of the table. */
  lemma DeleteAlone(c: T.Config, st: Stores, id: Uuid, draws: seq<string>, end: Stores, reply: T.Reply)
    requires StoresOk(c, st) && Completes(c, st, DeleteRow(id), draws, end, reply)
    ensures StoresOk(c, end) && (Abstract(end), reply) == T.Delete(Abstract(st), id)
  {
    if Live(st.users, id) {
      UserRevoked(c, st, id);
      var st1 := Effect(c, st, DeleteRow(id), draws[0]);
      assert Completes(c, st1, RevokeList(id), draws[1..], end, reply);
      RevokeAlone(c, st1, id, SMembers(st.keys, id), draws[1..][1..], end, reply);
    }
  }
}
