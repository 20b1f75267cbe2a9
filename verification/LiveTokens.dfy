/** How many live refresh tokens a user can have under interleaving, measured against the user's logins. */
module LiveTokens {
  import opened Prelude
  import opened Uuid
  import opened Keyspace
  import opened Refinement
  import opened Interleaved
  import Chains
  import Redemption
  import T = SessionTable

  function Stored(w: World, u: Uuid): set<string> {
    set t | t in w.stores.keys.refresh && w.stores.keys.refresh[t].payload.user == u
  }

  predicate HoldsFor(pc: Pc, u: Uuid) {
    pc.RefreshDel? && pc.payload.user == u
  }

  /** The tokens of `u` that are stored, or that a refresh has found and not deleted. */
  function Mine(w: World, u: Uuid): set<string> {
    Stored(w, u) + set r | r in w.procs && HoldsFor(w.procs[r], u) :: w.procs[r].token
  }

  predicate SpentFor(pc: Pc, u: Uuid) {
    (pc.RefreshSRem? || pc.RefreshRead? || pc.RefreshPair?) && pc.payload.user == u
  }

  /** The refreshes for `u` that have deleted their token and not returned. */
  function Spent(w: World, u: Uuid): set<Rid> {
    set r | r in w.procs && SpentFor(w.procs[r], u)
  }

  /** The step is a login that returns a pair for `u`. */
  ghost predicate Logs(c: T.Config, w: World, a: Action, u: Uuid) {
    Issues(c, w, a, u) && w.procs[a.rid].LoginPair?
  }

  ghost function Logins(c: T.Config, w: World, run: seq<Action>, u: Uuid): nat
    decreases |run|
  {
    if run == [] then 0
    else (if Logs(c, w, run[0], u) then 1 else 0) + Logins(c, After(c, w, run[0]), run[1..], u)
  }

  /** In no state of the run are two refreshes of one token between GET and DEL together. */
  ghost predicate OneAtATime(c: T.Config, w: World, run: seq<Action>)
    decreases |run|
  {
    && (forall t :: |Redemption.Holders(w, t)| <= 1)
    && (run == [] || OneAtATime(c, After(c, w, run[0]), run[1..]))
  }

  // ---- one step ----

  lemma OnlyHolder(w: World, r: Rid, q: Rid, t: string)
    requires |Redemption.Holders(w, t)| <= 1 && r in Redemption.Holders(w, t) && q in Redemption.Holders(w, t)
    ensures r == q
  {
    if r != q {
      SubsetSize({r, q}, Redemption.Holders(w, t));
    }
  }

  /** A token that becomes the user's was drawn by a pipeline for the user. */
  lemma MineStep(c: T.Config, w: World, a: Action, u: Uuid, t: string)
    requires Sound(c, w) && Enabled(w, a) && t in Mine(After(c, w, a), u)
    ensures t in Mine(w, u) || (Issues(c, w, a, u) && t == a.draw)
  {
    var after := After(c, w, a);
    if t in Stored(after, u) {
      if !Sets(w, a, t) { TokenKept(c, w, a, t); }
    } else {
      var r :| r in after.procs && HoldsFor(after.procs[r], u) && after.procs[r].token == t;
      assert r in w.procs && w.procs[r] == after.procs[r];
    }
  }

  lemma SpentStep(c: T.Config, w: World, a: Action, u: Uuid)
    requires Enabled(w, a)
    ensures var after := After(c, w, a);
            if a.Proceed? && HoldsFor(w.procs[a.rid], u) then Spent(after, u) == Spent(w, u) + {a.rid}
            else if a.Proceed? && w.procs[a.rid].RefreshPair? then Spent(after, u) == Spent(w, u) - {a.rid}
            else Spent(after, u) <= Spent(w, u)
  {
  }

  /** The DEL of the only refresh that holds a token takes it from its owner. */
  lemma SpendStep(c: T.Config, w: World, a: Action, u: Uuid)
    requires Enabled(w, a) && a.Proceed? && HoldsFor(w.procs[a.rid], u)
    requires |Redemption.Holders(w, w.procs[a.rid].token)| <= 1
    ensures w.procs[a.rid].token in Mine(w, u) && w.procs[a.rid].token !in Mine(After(c, w, a), u)
  {
    var after, token := After(c, w, a), w.procs[a.rid].token;
    if r :| r in after.procs && HoldsFor(after.procs[r], u) && after.procs[r].token == token {
      OnlyHolder(w, a.rid, r, token);
    }
  }

  lemma WeightStep(c: T.Config, w: World, a: Action, u: Uuid, o: Chains.Origins)
    requires Sound(c, w) && Chains.Rooted(w, o) && Enabled(w, a) && forall t :: |Redemption.Holders(w, t)| <= 1
    ensures var after := After(c, w, a);
            |Mine(after, u)| + |Spent(after, u)| <= |Mine(w, u)| + |Spent(w, u)| + (if Logs(c, w, a, u) then 1 else 0)
  {
    var after := After(c, w, a);
    var drawn := if Issues(c, w, a, u) then {a.draw} else {};
    forall t | t in Mine(after, u) ensures t in Mine(w, u) + drawn { MineStep(c, w, a, u, t); }
    SpentStep(c, w, a, u);
    if a.Proceed? && HoldsFor(w.procs[a.rid], u) {
      SpendStep(c, w, a, u);
      SubsetSize(Mine(after, u), Mine(w, u) - {w.procs[a.rid].token});
    } else if Issues(c, w, a, u) {
      SubsetSize(Mine(after, u), Mine(w, u) + drawn);
      assert Chains.PcRooted(w.stores.users, o, w.procs[a.rid]);
      assert w.procs[a.rid].RefreshPair? ==> a.rid in Spent(w, u);
      SubsetSize(Spent(after, u), Spent(w, u));
    } else {
      SubsetSize(Mine(after, u), Mine(w, u));
      SubsetSize(Spent(after, u), Spent(w, u));
    }
  }

  // ---- whole runs ----

  lemma {:induction false} WeightRun(c: T.Config, w: World, run: seq<Action>, u: Uuid, o: Chains.Origins)
    requires Sound(c, w) && Chains.Rooted(w, o) && Runs(c, w, run) && OneAtATime(c, w, run)
    ensures var end := Exec(c, w, run);
            |Mine(end, u)| + |Spent(end, u)| <= |Mine(w, u)| + |Spent(w, u)| + Logins(c, w, run, u)
    decreases |run|
  {
    if run != [] {
      var next, p := After(c, w, run[0]), Chains.Descend(w, run[0], o);
      WeightStep(c, w, run[0], u, o);
      SoundStep(c, w, run[0]);
      Chains.RootedStep(c, w, run[0], o);
      WeightRun(c, next, run[1..], u, p);
    }
  }

  /**
   As long as no two refreshes of one token are between GET and DEL together, a user never has more live refresh tokens
   than logins that returned a pair, whatever else is interleaved.
   */
  lemma NoMoreTokensThanLogins(c: T.Config, run: seq<Action>, u: Uuid)
    requires Runs(c, START, run) && OneAtATime(c, START, run)
    ensures |Stored(Exec(c, START, run), u)| <= Logins(c, START, run, u)
  {
    WeightRun(c, START, run, u, map[]);
    assert Mine(START, u) == {} && Spent(START, u) == {};
    var end := Exec(c, START, run);
    SubsetSize(Stored(end, u), Mine(end, u));
  }
}
