/**
 How often one refresh token is redeemed under interleaving.  GET and DEL are two commands, so the answer is not
 simply "once": it is the largest number of refreshes of the token that are ever between the two together.
 */
module Redemption {
  import opened Prelude
  import opened Refinement
  import opened Interleaved
  import T = SessionTable

  /** The refreshes of `t` between their GET, which found it, and their DEL. */
  function Holders(w: World, t: string): set<Rid> {
    set r | r in w.procs && w.procs[r].RefreshDel? && w.procs[r].token == t
  }

  /** The step is the GET of a refresh that finds `t`. */
  predicate Takes(w: World, a: Action, t: string) {
    Finds(w, a, t) && w.procs[a.rid].RefreshGet?
  }

  /** The step answers a refresh that found `t` with a pair. */
  ghost predicate Redeems(c: T.Config, w: World, a: Action, t: string) {
    && a.Proceed? && a.rid in w.procs && Carries(w.procs[a.rid], t)
    && Next(c, w.stores, w.procs[a.rid], a.draw).None? && Answer(c, w.stores, w.procs[a.rid], a.draw).Pair?
  }

  ghost function Taken(c: T.Config, w: World, run: seq<Action>, t: string): nat
    decreases |run|
  {
    if run == [] then 0
    else (if Takes(w, run[0], t) then 1 else 0) + Taken(c, After(c, w, run[0]), run[1..], t)
  }

  ghost function Redemptions(c: T.Config, w: World, run: seq<Action>, t: string): nat
    decreases |run|
  {
    if run == [] then 0
    else (if Redeems(c, w, run[0], t) then 1 else 0) + Redemptions(c, After(c, w, run[0]), run[1..], t)
  }

  /** In no state of the run are more than `k` refreshes of `t` between GET and DEL. */
  ghost predicate AtMostTogether(c: T.Config, w: World, run: seq<Action>, t: string, k: nat)
    decreases |run|
  {
    |Holders(w, t)| <= k && (run == [] || AtMostTogether(c, After(c, w, run[0]), run[1..], t, k))
  }

  // ---- finds and holders ----

  /** A find makes the request a holder; nothing but its own DEL, after which the token is gone, ends that. */
  lemma HoldersStep(c: T.Config, w: World, a: Action, t: string)
    requires Enabled(w, a)
    ensures var after := After(c, w, a);
            if Takes(w, a, t) then a.rid !in Holders(w, t) && Holders(after, t) == Holders(w, t) + {a.rid}
            else if a.Proceed? && a.rid in Holders(w, t)
            then Holders(after, t) == Holders(w, t) - {a.rid} && t !in after.stores.keys.refresh
            else Holders(after, t) == Holders(w, t)
  {
  }

  /** Gone means gone: no more finds, and ever fewer holders. */
  lemma {:induction false} NothingToTake(c: T.Config, w: World, run: seq<Action>, t: string, k: nat)
    requires Runs(c, w, run) && t in w.stores.drawn && t !in w.stores.keys.refresh
    requires |Holders(w, t)| <= k
    ensures Taken(c, w, run, t) == 0 && AtMostTogether(c, w, run, t, k)
    decreases |run|
  {
    if run != [] {
      GoneStep(c, w, run[0], t);
      HoldersStep(c, w, run[0], t);
      NothingToTake(c, After(c, w, run[0]), run[1..], t, k);
    }
  }

  lemma {:induction false} TakenIsPeak(c: T.Config, w: World, run: seq<Action>, t: string, k: nat)
    requires Sound(c, w) && Runs(c, w, run)
    ensures Taken(c, w, run, t) + |Holders(w, t)| <= k <==> AtMostTogether(c, w, run, t, k)
    decreases |run|
  {
    if run != [] {
      var a, next := run[0], After(c, w, run[0]);
      SoundStep(c, w, a);
      HoldersStep(c, w, a, t);
      TakenIsPeak(c, next, run[1..], t, k);
      if !Takes(w, a, t) && a.Proceed? && a.rid in Holders(w, t) {
        assert ProcOk(w.stores, w.procs[a.rid]);
        NothingToTake(c, next, run[1..], t, |Holders(next, t)|);
      }
    }
  }

  /**
   Over any run from the start, the refreshes whose GET finds a token are at most k exactly if never more than k of
   them are between GET and DEL together; and each issues at most one pair.
   */
  lemma TakenIff(c: T.Config, run: seq<Action>, t: string, k: nat)
    requires Runs(c, START, run)
    ensures Taken(c, START, run, t) <= k <==> AtMostTogether(c, START, run, t, k)
    ensures Redemptions(c, START, run, t) <= Taken(c, START, run, t)
  {
    assert Holders(START, t) == {} && Carriers(START, t) == {};
    TakenIsPeak(c, START, run, t, k);
    RedeemedByTakers(c, START, run, t);
  }

  /** So no token is ever redeemed twice while no two refreshes of it are between GET and DEL together. */
  lemma RedeemedOnce(c: T.Config, run: seq<Action>, t: string)
    requires Runs(c, START, run) && AtMostTogether(c, START, run, t, 1)
    ensures Redemptions(c, START, run, t) <= 1
  {
    TakenIff(c, run, t, 1);
  }

  // ---- pairs and finds ----

  /** The refreshes that found `t` and have not returned. */
  function Carriers(w: World, t: string): set<Rid> {
    set r | r in w.procs && Carries(w.procs[r], t)
  }

  predicate Carries(pc: Pc, t: string) {
    (pc.RefreshDel? || pc.RefreshSRem? || pc.RefreshRead? || pc.RefreshPair?) && pc.token == t
  }

  lemma CarriersStep(c: T.Config, w: World, a: Action, t: string)
    requires Enabled(w, a)
    ensures var after := After(c, w, a);
            if Takes(w, a, t) then Carriers(after, t) == Carriers(w, t) + {a.rid}
            else if Redeems(c, w, a, t) then Carriers(after, t) == Carriers(w, t) - {a.rid} && a.rid in Carriers(w, t)
            else Carriers(after, t) <= Carriers(w, t)
  {
  }

  lemma {:induction false} RedeemedByTakers(c: T.Config, w: World, run: seq<Action>, t: string)
    requires Runs(c, w, run)
    ensures Redemptions(c, w, run, t) <= Taken(c, w, run, t) + |Carriers(w, t)|
    decreases |run|
  {
    if run != [] {
      var next := After(c, w, run[0]);
      CarriersStep(c, w, run[0], t);
      RedeemedByTakers(c, next, run[1..], t);
      if Carriers(next, t) <= Carriers(w, t) {
        SubsetSize(Carriers(next, t), Carriers(w, t));
      }
    }
  }

  /**
   Once a drawn token is gone, by whatever logout, revocation, rotation or expiry, the pairs still issued for it come
   from refreshes that had found it before, one each.
   */
  lemma OnlyUnderWay(c: T.Config, w: World, run: seq<Action>, t: string)
    requires Runs(c, w, run) && t in w.stores.drawn && t !in w.stores.keys.refresh
    ensures Redemptions(c, w, run, t) <= |Carriers(w, t)|
  {
    NothingToTake(c, w, run, t, |Holders(w, t)|);
    RedeemedByTakers(c, w, run, t);
  }
}
