/**
 How fast passwords can be guessed under interleaving: the bound of module Lockout with k logins of a door in flight
 together, and a run that takes the counter as high as it can go.
 */
module GuessRate {
  import opened Prelude
  import opened Uuid
  import opened Accounts
  import opened Keyspace
  import opened Refinement
  import opened Interleaved
  import L = Lockout
  import T = SessionTable

  /** The step counts a failed verification. */
  predicate Counts(w: World, a: Action, door: Door) {
    a.Proceed? && a.rid in w.procs && w.procs[a.rid] == LoginIncr(door)
  }

  /** The step is the DEL of the counter by a login that verified the password. */
  predicate Clears(w: World, a: Action, door: Door) {
    a.Proceed? && a.rid in w.procs && w.procs[a.rid].LoginClear? && w.procs[a.rid].door == door
  }

  /** The failed verifications counted at times from `from` up to, not including, `until`. */
  ghost function CountsIn(c: T.Config, w: World, run: seq<Action>, door: Door, from: Time, until: Time): nat
    decreases |run|
  {
    if run == [] then 0
    else (if from <= w.stores.now < until && Counts(w, run[0], door) then 1 else 0)
         + CountsIn(c, After(c, w, run[0]), run[1..], door, from, until)
  }

  /** No login clears the counter in the interval. */
  ghost predicate NoClearIn(c: T.Config, w: World, run: seq<Action>, door: Door, from: Time, until: Time)
    decreases |run|
  {
    run == [] ||
    ((from <= w.stores.now < until ==> !Clears(w, run[0], door))
     && NoClearIn(c, After(c, w, run[0]), run[1..], door, from, until))
  }

  // ---- the budget ----

  /** What `n` counters can take. */
  function Rounds(k: nat, n: nat): nat { (4 + k) * n }

  lemma OneRound(k: nat, n: nat)
    ensures Rounds(k, n + 1) == Rounds(k, n) + 4 + k
  {
  }

  lemma {:induction false} RoundsMonotone(k: nat, m: nat, n: nat)
    requires m <= n
    ensures Rounds(k, m) <= Rounds(k, n)
    decreases n
  {
    if m < n {
      RoundsMonotone(k, m, n - 1);
      OneRound(k, n - 1);
    }
  }

  /** The earliest a present counter can be gone. */
  function End(w: World, door: Door): Time
    requires door in w.stores.keys.brute
  {
    match w.stores.keys.brute[door].expires
    case Some(e) => e
    case None => w.stores.now + T.BRUTE_TTL
  }

  /** An upper bound on the failures still to be counted before `until`. */
  function Budget(w: World, door: Door, until: Time, k: nat): nat {
    if w.stores.now >= until then 0
    else if door in w.stores.keys.brute then
      var n := w.stores.keys.brute[door].count;
      (if n <= 4 + k then 4 + k - n else 0) + Rounds(k, L.Windows(until - End(w, door)))
    else Rounds(k, L.Windows(until - w.stores.now))
  }

  lemma RoundsLater(k: nat, until: Time, early: Time, late: Time)
    requires early <= late
    ensures Rounds(k, L.Windows(until - late)) <= Rounds(k, L.Windows(until - early))
  {
    L.WindowsMonotone(until - late, until - early);
    RoundsMonotone(k, L.Windows(until - late), L.Windows(until - early));
  }

  lemma CountSpends(c: T.Config, w: World, a: Action, door: Door, until: Time, k: nat)
    requires Enabled(w, a) && Counts(w, a, door) && w.stores.now < until && Counter(w.stores.keys, door) < 4 + k
    ensures Budget(After(c, w, a), door, until, k) + 1 == Budget(w, door, until, k)
  {
    var t := until - w.stores.now;
    L.WindowsMonotone(t, t);
    OneRound(k, L.Windows(t - T.BRUTE_TTL));
  }

  lemma PassSpends(c: T.Config, w: World, d: Time, door: Door, until: Time, k: nat)
    ensures Budget(After(c, w, Pass(d)), door, until, k) <= Budget(w, door, until, k)
  {
    var now := w.stores.now + d;
    RoundsLater(k, until, w.stores.now, now);
    RoundsLater(k, until, w.stores.now + T.BRUTE_TTL, now + T.BRUTE_TTL);
    if door in w.stores.keys.brute && w.stores.keys.brute[door].expires.Some? {
      var e := w.stores.keys.brute[door].expires.value;
      if e <= now { RoundsLater(k, until, e, now); }
    }
  }

  /** Any other command leaves the counter alone, or sets its expiry to 15 minutes from now. */
  lemma OtherKeeps(c: T.Config, w: World, a: Action, door: Door)
    requires Enabled(w, a) && !a.Pass? && !Counts(w, a, door) && !Clears(w, a, door)
    ensures var after := After(c, w, a);
            && after.stores.now == w.stores.now
            && (door in after.stores.keys.brute <==> door in w.stores.keys.brute)
            && (door in w.stores.keys.brute ==>
                  var tally, next := w.stores.keys.brute[door], after.stores.keys.brute[door];
                  next.count == tally.count
                  && (next.expires == tally.expires || next.expires == Some(w.stores.now + T.BRUTE_TTL)))
  {
  }

  lemma OtherSpends(c: T.Config, w: World, a: Action, door: Door, until: Time, k: nat)
    requires CountersOk(w) && Enabled(w, a) && !a.Pass? && !Counts(w, a, door) && !Clears(w, a, door)
    ensures Budget(After(c, w, a), door, until, k) <= Budget(w, door, until, k)
  {
    OtherKeeps(c, w, a, door);
    if door in w.stores.keys.brute {
      assert TimedOrPending(w, door);
      RoundsLater(k, until, End(w, door), w.stores.now + T.BRUTE_TTL);
    }
  }

  lemma BudgetStep(c: T.Config, w: World, a: Action, door: Door, until: Time, k: nat)
    requires CountersOk(w) && Enabled(w, a) && w.stores.now < until && !Clears(w, a, door) && Load(w, door) <= 4 + k
    ensures Budget(After(c, w, a), door, until, k) + (if Counts(w, a, door) then 1 else 0) <= Budget(w, door, until, k)
  {
    if Counts(w, a, door) {
      assert a.rid in Checked(w, door);
      CountSpends(c, w, a, door, until, k);
    } else if a.Pass? {
      PassSpends(c, w, a.d, door, until, k);
    } else {
      OtherSpends(c, w, a, door, until, k);
    }
  }

  lemma {:induction false} WithinBudget(c: T.Config, w: World, run: seq<Action>, door: Door,
                                        from: Time, until: Time, k: nat)
    requires CountersOk(w) && Load(w, door) <= 4 + k && Runs(c, w, run) && AtMost(c, w, run, door, k)
    requires from <= w.stores.now && NoClearIn(c, w, run, door, from, until)
    ensures CountsIn(c, w, run, door, from, until) <= Budget(w, door, until, k)
    decreases |run|
  {
    if run != [] {
      CountersStep(c, w, run[0]);
      LoadStep(c, w, run[0], door, k);
      WithinBudget(c, After(c, w, run[0]), run[1..], door, from, until, k);
      if w.stores.now < until { BudgetStep(c, w, run[0], door, until, k); }
    }
  }

  lemma BudgetAtMost(w: World, door: Door, from: Time, length: Time, k: nat)
    requires CountersOk(w) && from <= w.stores.now && length > 0
    ensures Budget(w, door, from + length, k) <= Rounds(k, L.Windows(length)) + 3 + k
  {
    RoundsLater(k, from + length, from, w.stores.now);
    if door in w.stores.keys.brute {
      assert TimedOrPending(w, door);
      RoundsLater(k, from + length, from, End(w, door));
    }
  }

  lemma {:induction false} RateFrom(c: T.Config, w: World, run: seq<Action>, door: Door,
                                    from: Time, length: Time, k: nat)
    requires CountersOk(w) && Load(w, door) <= 4 + k && Runs(c, w, run) && AtMost(c, w, run, door, k)
    requires length > 0 && NoClearIn(c, w, run, door, from, from + length)
    ensures CountsIn(c, w, run, door, from, from + length) <= (4 + k) * L.Windows(length) + 3 + k
    decreases |run|
  {
    if from <= w.stores.now {
      WithinBudget(c, w, run, door, from, from + length, k);
      BudgetAtMost(w, door, from, length, k);
    } else if run != [] {
      CountersStep(c, w, run[0]);
      LoadStep(c, w, run[0], door, k);
      RateFrom(c, After(c, w, run[0]), run[1..], door, from, length, k);
    }
  }

  /**
   If never more than k logins of a door are in flight together, and none clears its counter in the interval, then any
   half-open interval of length T holds at most (4 + k) * ceil(T / 15 min) + 3 + k counted failures.  One at a time
   this is the serialized bound.
   */
  lemma GuessBound(c: T.Config, run: seq<Action>, door: Door, from: Time, length: Time, k: nat)
    requires Runs(c, START, run) && AtMost(c, START, run, door, k)
    requires length > 0 && NoClearIn(c, START, run, door, from, from + length)
    ensures CountsIn(c, START, run, door, from, from + length) <= (4 + k) * L.Windows(length) + 3 + k
  {
    assert Checked(START, door) == {};
    RateFrom(c, START, run, door, from, length, k);
  }

  // ---- the counter's height is reached ----

  /** The run leads to `end`, and never more than `k` logins of the door are in flight. */
  ghost predicate Reaches(c: T.Config, w: World, run: seq<Action>, door: Door, k: nat, end: World)
    decreases |run|
  {
    && |InFlight(w, door)| <= k
    && if run == [] then w == end else Enabled(w, run[0]) && Reaches(c, After(c, w, run[0]), run[1..], door, k, end)
  }

  lemma {:induction false} ReachesRuns(c: T.Config, w: World, run: seq<Action>, door: Door, k: nat, end: World)
    requires Reaches(c, w, run, door, k, end)
    ensures Runs(c, w, run) && AtMost(c, w, run, door, k) && Exec(c, w, run) == end
    decreases |run|
  {
    if run != [] { ReachesRuns(c, After(c, w, run[0]), run[1..], door, k, end); }
  }

  lemma Onward(c: T.Config, w: World, a: Action, rest: seq<Action>, door: Door, k: nat, end: World)
      returns (run: seq<Action>)
    requires Enabled(w, a) && |InFlight(w, door)| <= k && Reaches(c, After(c, w, a), rest, door, k, end)
    ensures Reaches(c, w, run, door, k, end)
  {
    run := [a] + rest;
    assert run[1..] == rest;
  }

  /** The numbers below `n`. */
  function Upto(n: nat): (s: set<Rid>)
    ensures |s| == n && forall r :: r in s <==> 0 <= r < n
  {
    if n == 0 then {} else Upto(n - 1) + {n - 1}
  }

  lemma FewInFlight(w: World, door: Door, n: nat)
    requires forall r :: r in w.procs ==> r < n
    ensures |InFlight(w, door)| <= n
  {
    assert InFlight(w, door) <= Upto(n);
    SubsetSize(InFlight(w, door), Upto(n));
  }

  /** No users, and a counter of `m`. */
  function Counted(door: Door, m: nat): Stores {
    START.stores.(keys := NO_KEYS.(brute := if m == 0 then map[] else map[door := Tally(m, Some(T.BRUTE_TTL))]))
  }

  /** Requests 0 to n - 1, all about to count a failure. */
  function Crowd(door: Door, n: nat): (procs: map<Rid, Pc>)
    ensures forall r :: r in procs <==> 0 <= r < n
  {
    if n == 0 then map[] else Crowd(door, n - 1)[n - 1 := LoginIncr(door)]
  }

  function Scene(door: Door, m: nat, n: nat): World { World(Counted(door, m), Crowd(door, n)) }

  lemma CrowdGrows(door: Door, n: nat)
    ensures n !in Crowd(door, n) && Crowd(door, n)[n := LoginIncr(door)] == Crowd(door, n + 1)
    ensures Crowd(door, n + 1) - {n} == Crowd(door, n)
    ensures forall r :: r in Crowd(door, n) ==> r < n
  {
  }

  /** The crowd of `n`, and one more login on its way. */
  function Arriving(door: Door, m: nat, n: nat, pc: Pc): World { World(Counted(door, m), Crowd(door, n)[n := pc]) }

  lemma FewArriving(door: Door, m: nat, n: nat, pc: Pc)
    ensures |InFlight(Scene(door, m, n), door)| <= n && |InFlight(Arriving(door, m, n, pc), door)| <= n + 1
  {
    CrowdGrows(door, n);
    FewInFlight(Scene(door, m, n), door, n);
    FewInFlight(Arriving(door, m, n, pc), door, n + 1);
  }

  /** It begins, passes the check, and finds no user. */
  lemma JoinSteps(c: T.Config, door: Door, m: nat, n: nat)
    requires m < T.BRUTE_LIMIT
    ensures var begin := Begin(n, LoginCheck(door, ""));
            Enabled(Scene(door, m, n), begin) && After(c, Scene(door, m, n), begin) == Arriving(door, m, n, begin.pc)
    ensures var w := Arriving(door, m, n, LoginCheck(door, ""));
            Enabled(w, Proceed(n, "")) && After(c, w, Proceed(n, "")) == Arriving(door, m, n, LoginRead(door, ""))
    ensures var w := Arriving(door, m, n, LoginRead(door, ""));
            Enabled(w, Proceed(n, "")) && After(c, w, Proceed(n, "")) == Scene(door, m, n + 1)
  {
    CrowdGrows(door, n);
    var crowd := Crowd(door, n);
    var checking: map<Rid, Pc> := crowd[n := LoginCheck(door, "")];
    var reading: map<Rid, Pc> := crowd[n := LoginRead(door, "")];
    assert checking[n := LoginRead(door, "")] == reading;
    assert reading[n := LoginIncr(door)] == crowd[n := LoginIncr(door)];
    assert FindByName(map[], door.0, door.1).None? by { assert forall u :: !Named(map[], u, door.0, door.1); }
  }

  lemma Joins(c: T.Config, door: Door, m: nat, n: nat, k: nat, rest: seq<Action>, end: World) returns (run: seq<Action>)
    requires m < T.BRUTE_LIMIT && n < k && Reaches(c, Scene(door, m, n + 1), rest, door, k, end)
    ensures Reaches(c, Scene(door, m, n), run, door, k, end)
  {
    var check, read := LoginCheck(door, ""), LoginRead(door, "");
    JoinSteps(c, door, m, n);
    FewArriving(door, m, n, check);
    FewArriving(door, m, n, read);
    run := Onward(c, Arriving(door, m, n, read), Proceed(n, ""), rest, door, k, end);
    run := Onward(c, Arriving(door, m, n, check), Proceed(n, ""), run, door, k, end);
    run := Onward(c, Scene(door, m, n), Begin(n, check), run, door, k, end);
  }

  lemma CountedGrows(c: T.Config, door: Door, m: nat)
    requires m > 0
    ensures Effect(c, Counted(door, m), LoginIncr(door), "") == Counted(door, m + 1)
    ensures Next(c, Counted(door, m), LoginIncr(door), "") == None
  {
    assert Incr(Counted(door, m).keys, door) == Counted(door, m + 1).keys;
  }

  lemma LeaveStep(c: T.Config, door: Door, m: nat, n: nat)
    requires m > 0
    ensures var w := Scene(door, m, n + 1);
            && Enabled(w, Proceed(n, "")) && |InFlight(w, door)| <= n + 1
            && After(c, w, Proceed(n, "")) == Scene(door, m + 1, n)
  {
    CrowdGrows(door, n);
    CrowdGrows(door, n + 1);
    CountedGrows(c, door, m);
    FewInFlight(Scene(door, m, n + 1), door, n + 1);
    assert Scene(door, m, n + 1).procs[n] == LoginIncr(door);
  }

  /** The last of the crowd counts its failure on a counter that is there already. */
  lemma Leaves(c: T.Config, door: Door, m: nat, n: nat, k: nat, rest: seq<Action>, end: World)
      returns (run: seq<Action>)
    requires m > 0 && n < k && Reaches(c, Scene(door, m + 1, n), rest, door, k, end)
    ensures Reaches(c, Scene(door, m, n + 1), run, door, k, end)
  {
    LeaveStep(c, door, m, n);
    run := Onward(c, Scene(door, m, n + 1), Proceed(n, ""), rest, door, k, end);
  }

  lemma {:induction false} AllJoin(c: T.Config, door: Door, m: nat, n: nat, k: nat, rest: seq<Action>, end: World)
      returns (run: seq<Action>)
    requires m < T.BRUTE_LIMIT && n <= k && Reaches(c, Scene(door, m, k), rest, door, k, end)
    ensures Reaches(c, Scene(door, m, n), run, door, k, end)
    decreases k - n
  {
    run := rest;
    if n < k {
      run := AllJoin(c, door, m, n + 1, k, rest, end);
      run := Joins(c, door, m, n, k, run, end);
    }
  }

  lemma {:induction false} AllLeave(c: T.Config, door: Door, m: nat, n: nat, k: nat) returns (run: seq<Action>)
    requires m > 0 && n <= k
    ensures Reaches(c, Scene(door, m, n), run, door, k, Scene(door, m + n, 0))
    decreases n
  {
    if n == 0 {
      run := [];
      FewInFlight(Scene(door, m, 0), door, 0);
    } else {
      run := AllLeave(c, door, m + 1, n - 1, k);
      run := Leaves(c, door, m, n - 1, k, run, Scene(door, m + n, 0));
    }
  }

  /** The first failure, with its EXPIRE. */
  lemma FirstFailure(c: T.Config, door: Door, k: nat, rest: seq<Action>, end: World) returns (run: seq<Action>)
    requires k > 0 && Reaches(c, Scene(door, 1, 0), rest, door, k, end)
    ensures Reaches(c, Scene(door, 0, 0), run, door, k, end)
  {
    var one := World(Effect(c, Counted(door, 0), LoginIncr(door), ""), map[0 := LoginExpire(door)]);
    FewInFlight(one, door, 1);
    assert one.procs - {0} == Crowd(door, 0);
    assert ExpireTally(one.stores.keys, door, T.BRUTE_TTL) == Counted(door, 1).keys;
    run := Onward(c, one, Proceed(0, ""), rest, door, k, end);
    CrowdGrows(door, 0);
    assert Crowd(door, 1)[0 := LoginExpire(door)] == one.procs;
    FewInFlight(Scene(door, 0, 1), door, 1);
    run := Onward(c, Scene(door, 0, 1), Proceed(0, ""), run, door, k, end);
    run := Joins(c, door, 0, 0, k, run, end);
  }

  /** Failures one at a time, up to four. */
  lemma {:induction false} OneByOne(c: T.Config, door: Door, m: nat, k: nat, rest: seq<Action>, end: World)
      returns (run: seq<Action>)
    requires k > 0 && 0 < m <= 4 && Reaches(c, Scene(door, 4, 0), rest, door, k, end)
    ensures Reaches(c, Scene(door, m, 0), run, door, k, end)
    decreases 4 - m
  {
    if m == 4 {
      run := rest;
    } else {
      run := OneByOne(c, door, m + 1, k, rest, end);
      run := Leaves(c, door, m, 0, k, run, end);
      run := Joins(c, door, m, 0, k, run, end);
    }
  }

  /** For every k a run with never more than k logins of the door in flight takes its counter to 4 + k. */
  lemma CounterReached(c: T.Config, door: Door, k: nat) returns (run: seq<Action>)
    requires k > 0
    ensures Runs(c, START, run) && AtMost(c, START, run, door, k)
    ensures Counter(Exec(c, START, run).stores.keys, door) == 4 + k
  {
    var end := Scene(door, 4 + k, 0);
    run := AllLeave(c, door, 4, k, k);
    run := AllJoin(c, door, 4, 0, k, run, end);
    run := OneByOne(c, door, 1, k, run, end);
    run := FirstFailure(c, door, k, run, end);
    ReachesRuns(c, Scene(door, 0, 0), run, door, k, end);
    assert Scene(door, 0, 0) == START;
  }
}
