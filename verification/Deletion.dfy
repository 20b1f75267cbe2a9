/** What a revocation can miss under interleaving: exactly the tokens of late pipelines and of logouts under way. */
module Deletion {
  import opened Prelude
  import opened Uuid
  import opened Accounts
  import opened Keyspace
  import opened Refinement
  import opened Interleaved
  import T = SessionTable

  predicate Revokes(pc: Pc, u: Uuid) {
    (pc.RevokeList? || pc.RevokeDel?) && pc.id == u
  }

  /** The revocation of `u` by `rid` will still delete the token. */
  predicate Coming(w: World, rid: Rid, u: Uuid, t: string)
    requires t in w.stores.keys.refresh
  {
    rid in w.procs && Revokes(w.procs[rid], u) &&
    if w.procs[rid].RevokeList? then Listed(w.stores.keys, t) else t in w.procs[rid].left
  }

  /** So will it, or a logout of the token that has taken it out of the index already. */
  ghost predicate Doomed(w: World, rid: Rid, u: Uuid, t: string)
    requires t in w.stores.keys.refresh
  {
    Coming(w, rid, u, t) || exists r :: LeavingAt(w, r, t)
  }

  predicate OwnedBy(w: World, t: string, u: Uuid) {
    t in w.stores.keys.refresh && w.stores.keys.refresh[t].payload.user == u
  }

  /** Every token of `u` drawn before is doomed, and nobody else revokes for `u`. */
  ghost predicate Covered(w: World, drawn: set<string>, rid: Rid, u: Uuid) {
    && drawn <= w.stores.drawn
    && Deleted(w.stores.users, u)
    && (forall r :: r in w.procs && Revokes(w.procs[r], u) ==> r == rid)
    && (forall t :: t in drawn && OwnedBy(w, t, u) ==> Doomed(w, rid, u, t))
  }

  lemma CommitCovers(c: T.Config, w: World, rid: Rid, u: Uuid)
    requires Sound(c, w) && IndexOk(w) && rid in w.procs && w.procs[rid] == DeleteRow(u) && Live(w.stores.users, u)
    ensures Covered(After(c, w, Proceed(rid, "")), w.stores.drawn, rid, u)
  {
    var after := After(c, w, Proceed(rid, ""));
    forall r | r in after.procs && Revokes(after.procs[r], u) ensures r == rid {
      assert r != rid ==> ProcOk(w.stores, w.procs[r]);
    }
    forall t | OwnedBy(after, t, u) ensures Doomed(after, rid, u, t) {
      assert IndexedOrExcused(w, t);
      if !Listed(w.stores.keys, t) {
        var r :| LeavingAt(w, r, t);
        assert LeavingAt(after, r, t);
      }
    }
  }

  lemma ComingStep(c: T.Config, w: World, a: Action, rid: Rid, u: Uuid, t: string)
    requires SetsOutlive(c) && Sound(c, w) && Enabled(w, a) && OwnedBy(w, t, u) && OwnedBy(After(c, w, a), t, u)
    requires forall r :: r in w.procs && Revokes(w.procs[r], u) ==> r == rid
    requires Coming(w, rid, u, t)
    ensures Doomed(After(c, w, a), rid, u, t)
  {
    var after := After(c, w, a);
    if a.Proceed? && a.rid != rid && w.procs[rid].RevokeList? {
      assert ProcOk(w.stores, w.procs[a.rid]);
      CommandKeepsListed(c, w.stores, w.procs[a.rid], a.draw, t);
      assert w.procs[a.rid].LogoutSRem? && w.procs[a.rid].token == t ==> LeavingAt(after, a.rid, t);
    }
  }

  lemma LeavingStep(c: T.Config, w: World, a: Action, rid: Rid, u: Uuid, t: string)
    requires Enabled(w, a) && (exists r :: LeavingAt(w, r, t)) && t in After(c, w, a).stores.keys.refresh
    ensures Doomed(After(c, w, a), rid, u, t)
  {
    var r :| LeavingAt(w, r, t);
    assert LeavingAt(After(c, w, a), r, t);
  }

  lemma CoveredStep(c: T.Config, w: World, a: Action, drawn: set<string>, rid: Rid, u: Uuid)
    requires SetsOutlive(c) && Sound(c, w) && Enabled(w, a) && Covered(w, drawn, rid, u)
    ensures Covered(After(c, w, a), drawn, rid, u)
  {
    UsersEvolve(c, w, a);
    forall t | t in drawn && OwnedBy(After(c, w, a), t, u) ensures Doomed(After(c, w, a), rid, u, t) {
      TokenKept(c, w, a, t);
      if Coming(w, rid, u, t) { ComingStep(c, w, a, rid, u, t); } else { LeavingStep(c, w, a, rid, u, t); }
    }
  }

  lemma {:induction false} CoveredRun(c: T.Config, w: World, run: seq<Action>, drawn: set<string>, rid: Rid, u: Uuid)
    requires SetsOutlive(c) && Sound(c, w) && Runs(c, w, run) && Covered(w, drawn, rid, u)
    ensures Covered(Exec(c, w, run), drawn, rid, u)
    decreases |run|
  {
    if run != [] {
      SoundStep(c, w, run[0]);
      CoveredStep(c, w, run[0], drawn, rid, u);
      CoveredRun(c, After(c, w, run[0]), run[1..], drawn, rid, u);
    }
  }

  // ---- the tokens of late pipelines ----

  function Late(w: World, drawn: set<string>, u: Uuid): set<string> {
    set t | t in w.stores.keys.refresh && t !in drawn && OwnedBy(w, t, u)
  }

  lemma LateStep(c: T.Config, w: World, a: Action, drawn: set<string>, u: Uuid)
    requires Enabled(w, a)
    ensures Late(After(c, w, a), drawn, u) <= Late(w, drawn, u) + (if Issues(c, w, a, u) then {a.draw} else {})
  {
    forall t | t in Late(After(c, w, a), drawn, u) && !Sets(w, a, t) ensures t in Late(w, drawn, u) {
      TokenKept(c, w, a, t);
    }
  }

  lemma {:induction false} LateRun(c: T.Config, w: World, run: seq<Action>, drawn: set<string>, u: Uuid)
    requires Runs(c, w, run)
    ensures |Late(Exec(c, w, run), drawn, u)| <= |Late(w, drawn, u)| + |Issuers(c, w, run, u)|
    decreases |run|
  {
    if run != [] {
      var next := After(c, w, run[0]);
      var drawnNow := if Issues(c, w, run[0], u) then {run[0].draw} else {};
      LateStep(c, w, run[0], drawn, u);
      LateRun(c, next, run[1..], drawn, u);
      SubsetSize(Late(next, drawn, u), Late(w, drawn, u) + drawnNow);
    }
  }

  lemma {:induction false} Unaltered(c: T.Config, w: World, run: seq<Action>, t: string)
    requires Runs(c, w, run) && t in w.stores.drawn && t in Exec(c, w, run).stores.keys.refresh
    ensures t in w.stores.keys.refresh && Exec(c, w, run).stores.keys.refresh[t] == w.stores.keys.refresh[t]
    decreases |run|
  {
    if run != [] {
      Unaltered(c, After(c, w, run[0]), run[1..], t);
      TokenKept(c, w, run[0], t);
    }
  }

  /** A token of `u` drawn after the commit was set by a request that had read the row before it. */
  lemma {:induction false} LateSetter(c: T.Config, w: World, run: seq<Action>, u: Uuid, t: string) returns (k: nat)
    requires Runs(c, w, run) && Deleted(w.stores.users, u)
    requires t !in w.stores.drawn && t in Exec(c, w, run).stores.drawn && OwnedBy(Exec(c, w, run), t, u)
    ensures k < |run| && Sets(Exec(c, w, run[..k]), run[k], t) && run[k].rid in PastRead(w, u)
    decreases |run|
  {
    var next := After(c, w, run[0]);
    UsersEvolve(c, w, run[0]);
    PastReadShrinks(c, w, run[0], u);
    if t in next.stores.drawn {
      Unaltered(c, next, run[1..], t);
      k := 0;
    } else {
      var j := LateSetter(c, next, run[1..], u, t);
      k := j + 1;
      assert run[..k][1..] == run[1..][..j];
    }
  }

  /**
   When the deletion of `u` has returned, each stored token of `u` was set after the commit by a request that had read
   the row before (so there are at most as many as such requests), or has a logout of it between its SREM and its DEL.
   */
  lemma DeletionMisses(c: T.Config, before: seq<Action>, rid: Rid, run: seq<Action>, u: Uuid)
    requires SetsOutlive(c) && Runs(c, START, before)
    requires var w := Exec(c, START, before);
             rid in w.procs && w.procs[rid] == DeleteRow(u) && Live(w.stores.users, u)
             && Runs(c, After(c, w, Proceed(rid, "")), run)
    requires var end := Exec(c, After(c, Exec(c, START, before), Proceed(rid, "")), run);
             rid in end.procs ==> !Revokes(end.procs[rid], u)
    ensures var commit := After(c, Exec(c, START, before), Proceed(rid, ""));
            var end := Exec(c, commit, run);
            && (forall t :: OwnedBy(end, t, u) && t in commit.stores.drawn ==> exists r :: LeavingAt(end, r, t))
            && |Late(end, commit.stores.drawn, u)| <= |PastRead(commit, u)|
  {
    var w := Exec(c, START, before);
    var commit := After(c, w, Proceed(rid, ""));
    SoundRun(c, START, before);
    IndexRun(c, START, before);
    SoundStep(c, w, Proceed(rid, ""));
    CommitCovers(c, w, rid, u);
    CoveredRun(c, commit, run, w.stores.drawn, rid, u);
    LateRun(c, commit, run, commit.stores.drawn, u);
    assert Late(commit, commit.stores.drawn, u) == {};
    NoPairAfterDeletion(c, commit, run, u);
  }
}
