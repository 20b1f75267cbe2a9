/** The failure counter over serialized runs: how long a lock lasts, and how many guesses an interval can hold. */
module Lockout {
  import opened Prelude
  import opened Accounts
  import opened Keyspace
  import opened SessionTable

  // ---- a lock lasts until first failure + 15 min ----

  predicate Locked(s: Table, door: Door) {
    Failures(s, door) >= BRUTE_LIMIT
  }

  /** One step from a locked door leaves its window alone unless it moves the clock past the window's end. */
  lemma LockedStep(c: Config, s: Table, a: Action, door: Door)
    requires Inv(c, s) && Locked(s, door)
    ensures var next := After(c, s, a);
            if next.now < s.windows[door].started + BRUTE_TTL
            then door in next.windows && next.windows[door] == s.windows[door]
            else door !in next.windows
    ensures a.DoLogin? && (a.tenant, a.username) == door ==>
              After(c, s, a) == s && ReplyTo(c, s, a) == Failed(AccountLocked)
  {
  }

  /**
   Whatever the requests, a locked door keeps its window unchanged exactly until 15 minutes after its first failure.
   (The window's start is that failure's time; docs/TOKEN.md reads as if the lock lasted 15 minutes.)
   */
  lemma {:induction false} LockedUntil(c: Config, s: Table, run: seq<Action>, door: Door)
    requires ValidConfig(c) && Inv(c, s) && Runs(c, s, run) && door in s.windows && s.windows[door].failures >= 5
    ensures var end := Exec(c, s, run);
            if end.now < s.windows[door].started + 900_000
            then door in end.windows && end.windows[door] == s.windows[door] && end.windows[door].failures == 5
            else door in end.windows ==> end.windows[door].started >= s.windows[door].started + 900_000
    decreases |run|
  {
    assert WindowOk(s, door);
    if run != [] {
      var next := After(c, s, run[0]);
      StepInv(c, s, run[0]);
      LockedStep(c, s, run[0], door);
      if door in next.windows {
        LockedUntil(c, next, run[1..], door);
      } else {
        OpenedLater(c, next, run[1..], door, s.windows[door].started + BRUTE_TTL);
        ClockMonotone(c, next, run[1..]);
      }
    }
  }

  lemma OpenedStep(c: Config, s: Table, a: Action, door: Door, t: Time)
    requires t <= s.now && (door in s.windows ==> s.windows[door].started >= t)
    ensures var next := After(c, s, a); t <= next.now && (door in next.windows ==> next.windows[door].started >= t)
  {
  }

  /** A window opened from now on starts now or later. */
  lemma {:induction false} OpenedLater(c: Config, s: Table, run: seq<Action>, door: Door, t: Time)
    requires t <= s.now
    requires door in s.windows ==> s.windows[door].started >= t
    ensures var end := Exec(c, s, run); door in end.windows ==> end.windows[door].started >= t
    decreases |run|
  {
    if run != [] {
      OpenedStep(c, s, run[0], door, t);
      OpenedLater(c, After(c, s, run[0]), run[1..], door, t);
    }
  }

  /** In every reachable table no counter exceeds five. */
  lemma NeverAboveFive(c: Config, run: seq<Action>, door: Door)
    requires ValidConfig(c) && Runs(c, EMPTY, run)
    ensures Failures(Exec(c, EMPTY, run), door) <= 5
  {
    EmptyInv(c);
    RunInv(c, EMPTY, run);
    var end := Exec(c, EMPTY, run);
    assert door in end.windows ==> WindowOk(end, door);
  }

  lemma WindowStep(c: Config, s: Table, a: Action, door: Door)
    requires door in s.windows && WindowOk(s, door) && !At(a, door)
    ensures var next := After(c, s, a);
            if next.now < s.windows[door].started + 900_000
            then door in next.windows && next.windows[door] == s.windows[door]
            else door !in next.windows
  {
  }

  /** Failures short of five are forgotten at the same instant: 15 minutes after the first, unless a login comes. */
  lemma {:induction false} WindowLasts(c: Config, s: Table, run: seq<Action>, door: Door)
    requires ValidConfig(c) && Inv(c, s) && Runs(c, s, run) && door in s.windows
    requires forall a :: a in run ==> !At(a, door)
    ensures var end := Exec(c, s, run);
            if end.now < s.windows[door].started + 900_000
            then door in end.windows && end.windows[door] == s.windows[door]
            else door !in end.windows
    decreases |run|
  {
    assert WindowOk(s, door);
    if run != [] {
      var next := After(c, s, run[0]);
      assert !At(run[0], door);
      StepInv(c, s, run[0]);
      WindowStep(c, s, run[0], door);
      ClockMonotone(c, next, run[1..]);
      if door in next.windows {
        WindowLasts(c, next, run[1..], door);
      } else {
        NoneOpened(c, next, run[1..], door);
      }
    }
  }

  lemma {:induction false} NoneOpened(c: Config, s: Table, run: seq<Action>, door: Door)
    requires door !in s.windows && forall a :: a in run ==> !At(a, door)
    ensures door !in Exec(c, s, run).windows
    decreases |run|
  {
    if run != [] {
      assert !At(run[0], door);
      NoneOpened(c, After(c, s, run[0]), run[1..], door);
    }
  }

  // ---- failed verifications in an interval ----

  predicate At(a: Action, door: Door) {
    a.DoLogin? && (a.tenant, a.username) == door
  }

  ghost predicate Fails(c: Config, s: Table, a: Action, door: Door) {
    At(a, door) && ReplyTo(c, s, a) == Failed(InvalidCredentials)
  }

  /** The failed verifications at a door at times from `from` up to, not including, `until`. */
  ghost function FailuresIn(c: Config, s: Table, run: seq<Action>, door: Door, from: Time, until: Time): nat
    decreases |run|
  {
    if run == [] then 0
    else (if from <= s.now < until && Fails(c, s, run[0], door) then 1 else 0)
         + FailuresIn(c, After(c, s, run[0]), run[1..], door, from, until)
  }

  /** No login succeeds at the door in the interval. */
  ghost predicate NoSuccessIn(c: Config, s: Table, run: seq<Action>, door: Door, from: Time, until: Time)
    decreases |run|
  {
    run == [] ||
    ((from <= s.now < until && At(run[0], door) ==> !ReplyTo(c, s, run[0]).Pair?)
     && NoSuccessIn(c, After(c, s, run[0]), run[1..], door, from, until))
  }

  /** The least number of windows that cover a stretch of time. */
  function Windows(t: int): (n: nat)
    ensures t > 0 ==> (n - 1) * 900_000 < t <= n * 900_000
    ensures t <= 0 ==> n == 0
  {
    if t <= 0 then 0 else (t + BRUTE_TTL - 1) / BRUTE_TTL
  }

  lemma WindowsMonotone(a: int, b: int)
    requires a <= b
    ensures Windows(a) <= Windows(b)
    ensures b > 0 ==> Windows(b - BRUTE_TTL) + 1 == Windows(b)
  {
  }

  /** An upper bound on the failures still to come before `until`. */
  function Budget(s: Table, door: Door, until: Time): nat {
    if s.now >= until then 0
    else if door in s.windows then
      var w := s.windows[door];
      (if w.failures < BRUTE_LIMIT then BRUTE_LIMIT - w.failures else 0)
      + BRUTE_LIMIT * Windows(until - (w.started + BRUTE_TTL))
    else BRUTE_LIMIT * Windows(until - s.now)
  }

  lemma BudgetFail(c: Config, s: Table, a: Action, door: Door, until: Time)
    requires Inv(c, s) && Fails(c, s, a, door) && s.now < until
    ensures Budget(After(c, s, a), door, until) + 1 == Budget(s, door, until)
  {
    WindowsMonotone(until - s.now, until - s.now);
    assert After(c, s, a) == CountFailure(s, door);
  }

  lemma BudgetTick(c: Config, s: Table, d: Time, door: Door, until: Time)
    requires Inv(c, s)
    ensures Budget(Tick(s, d), door, until) <= Budget(s, door, until)
  {
    var next := Tick(s, d);
    WindowsMonotone(until - next.now, until - s.now);
    if door in s.windows {
      if door !in next.windows {
        WindowsMonotone(until - next.now, until - (s.windows[door].started + BRUTE_TTL));
      }
    }
  }

  lemma BudgetStep(c: Config, s: Table, a: Action, door: Door, until: Time)
    requires Inv(c, s) && s.now < until
    requires At(a, door) ==> !ReplyTo(c, s, a).Pair?
    ensures Budget(After(c, s, a), door, until) + (if Fails(c, s, a, door) then 1 else 0) <= Budget(s, door, until)
  {
    if Fails(c, s, a, door) {
      BudgetFail(c, s, a, door, until);
    } else if a.DoTick? {
      BudgetTick(c, s, a.d, door, until);
    } else {
      var next := After(c, s, a);
      assert next.now == s.now;
      assert (door in next.windows <==> door in s.windows)
             && (door in s.windows ==> next.windows[door] == s.windows[door]);
    }
  }

  /** The failures still to come fit in the budget. */
  lemma {:induction false} WithinBudget(c: Config, s: Table, run: seq<Action>, door: Door, from: Time, until: Time)
    requires ValidConfig(c) && Inv(c, s) && Runs(c, s, run)
    requires from <= s.now && NoSuccessIn(c, s, run, door, from, until)
    ensures FailuresIn(c, s, run, door, from, until) <= Budget(s, door, until)
    decreases |run|
  {
    if run != [] {
      var next := After(c, s, run[0]);
      StepInv(c, s, run[0]);
      WithinBudget(c, next, run[1..], door, from, until);
      if s.now < until {
        BudgetStep(c, s, run[0], door, until);
      }
    }
  }

  /**
   For one (tenant, user name), with no successful login at it in the interval, any half-open interval of length T
   holds at most 5 * ceil(T / 15 min) + 4 failed verifications.
   */
  lemma {:induction false} GuessBound(c: Config, s: Table, run: seq<Action>, door: Door, from: Time, length: Time)
    requires ValidConfig(c) && Inv(c, s) && Runs(c, s, run) && length > 0
    requires NoSuccessIn(c, s, run, door, from, from + length)
    ensures FailuresIn(c, s, run, door, from, from + length) <= 5 * Windows(length) + 4
    decreases |run|
  {
    if from <= s.now {
      WithinBudget(c, s, run, door, from, from + length);
      WindowsMonotone(from + length - s.now, length);
      if door in s.windows {
        assert WindowOk(s, door);
        WindowsMonotone(from + length - (s.windows[door].started + BRUTE_TTL), length);
      }
    } else if run != [] {
      StepInv(c, s, run[0]);
      GuessBound(c, After(c, s, run[0]), run[1..], door, from, length);
    }
  }

  // ---- the bound is reached ----

  /** A login that fails for want of a user. */
  function Guess(door: Door): Action { DoLogin(door.0, door.1, "", "") }

  function Burst(door: Door, n: nat): seq<Action> {
    if n == 0 then [] else [Guess(door)] + Burst(door, n - 1)
  }

  function Burnt(s: Table, door: Door, n: nat): Table
    decreases n
  {
    if n == 0 then s else Burnt(CountFailure(s, door), door, n - 1)
  }

  /** No users, nothing drawn: every unlocked login at the door fails. */
  predicate Bare(s: Table) {
    s.users == map[] && s.drawn == {}
  }

  lemma {:induction false} BurntWindow(s: Table, door: Door, n: nat)
    requires n > 0
    ensures var t := Burnt(s, door, n);
            var started := if door in s.windows then s.windows[door].started else s.now;
            door in t.windows && t.windows[door] == Window(Failures(s, door) + n, started)
            && t.now == s.now && t.users == s.users && t.drawn == s.drawn
    decreases n
  {
    if n > 1 { BurntWindow(CountFailure(s, door), door, n - 1); }
  }

  lemma GuessFails(c: Config, s: Table, door: Door)
    requires Bare(s) && Failures(s, door) < BRUTE_LIMIT
    ensures Enabled(s, Guess(door)) && Fails(c, s, Guess(door), door)
            && After(c, s, Guess(door)) == CountFailure(s, door)
  {
  }

  /** One failing guess in front of a run. */
  lemma FirstFails(c: Config, s: Table, door: Door, rest: seq<Action>, from: Time, until: Time)
    requires Bare(s) && Failures(s, door) < BRUTE_LIMIT && from <= s.now < until
    requires Runs(c, CountFailure(s, door), rest) && NoSuccessIn(c, CountFailure(s, door), rest, door, from, until)
    ensures Runs(c, s, [Guess(door)] + rest) && NoSuccessIn(c, s, [Guess(door)] + rest, door, from, until)
    ensures FailuresIn(c, s, [Guess(door)] + rest, door, from, until)
         == 1 + FailuresIn(c, CountFailure(s, door), rest, door, from, until)
  {
  }

  lemma {:induction false} BurstFails(c: Config, s: Table, door: Door, n: nat, rest: seq<Action>, from: Time,
                                      until: Time)
    requires Bare(s) && Failures(s, door) + n <= BRUTE_LIMIT && from <= s.now < until
    requires Runs(c, Burnt(s, door, n), rest) && NoSuccessIn(c, Burnt(s, door, n), rest, door, from, until)
    ensures Runs(c, s, Burst(door, n) + rest) && NoSuccessIn(c, s, Burst(door, n) + rest, door, from, until)
    ensures FailuresIn(c, s, Burst(door, n) + rest, door, from, until)
         == n + FailuresIn(c, Burnt(s, door, n), rest, door, from, until)
    decreases n
  {
    if n == 0 {
      assert Burst(door, n) + rest == rest;
    } else {
      var tail := Burst(door, n - 1) + rest;
      assert Burst(door, n) + rest == [Guess(door)] + tail;
      BurstFails(c, CountFailure(s, door), door, n - 1, rest, from, until);
      FirstFails(c, s, door, tail, from, until);
    }
  }

  /** Wait `d` for the window to close, use up the next one, and so on for `n` windows. */
  function Attack(door: Door, d: Time, n: nat): seq<Action>
    decreases n
  {
    if n == 0 then [] else [DoTick(d)] + (Burst(door, BRUTE_LIMIT) + Attack(door, BRUTE_TTL, n - 1))
  }

  lemma {:induction false} AttackFails(c: Config, s: Table, door: Door, d: Time, n: nat, from: Time, until: Time)
    requires Bare(s) && from <= s.now
    requires door in s.windows && s.windows[door].started + BRUTE_TTL == s.now + d
    requires n > 0 ==> s.now + d + (n - 1) * BRUTE_TTL < until
    ensures Runs(c, s, Attack(door, d, n)) && NoSuccessIn(c, s, Attack(door, d, n), door, from, until)
    ensures FailuresIn(c, s, Attack(door, d, n), door, from, until) == 5 * n
    decreases n
  {
    if n > 0 {
      var run := Attack(door, d, n);
      var t := Tick(s, d);
      var rest := Attack(door, BRUTE_TTL, n - 1);
      var u := Burnt(t, door, BRUTE_LIMIT);
      assert door !in t.windows;
      BurntWindow(t, door, BRUTE_LIMIT);
      AttackFails(c, u, door, BRUTE_TTL, n - 1, from, until);
      BurstFails(c, t, door, BRUTE_LIMIT, rest, from, until);
      assert run[0] == DoTick(d) && run[1..] == Burst(door, BRUTE_LIMIT) + rest;
      assert After(c, s, run[0]) == t;
    }
  }

  /** For every number n of quarter hours some run without a success holds all 5 n + 4 failures; nine for n = 1. */
  lemma GuessBoundReached(c: Config, door: Door, n: nat) returns (run: seq<Action>)
    requires n > 0
    ensures Runs(c, EMPTY, run) && NoSuccessIn(c, EMPTY, run, door, 1, 1 + n * 900_000)
    ensures FailuresIn(c, EMPTY, run, door, 1, 1 + n * 900_000) == 5 * n + 4
  {
    var until := 1 + n * BRUTE_TTL;
    var first := CountFailure(EMPTY, door);
    var later := Tick(first, 1);
    var full := Burnt(later, door, 4);
    GuessFails(c, EMPTY, door);
    assert later.windows == map[door := Window(1, 0)];
    BurntWindow(later, door, 4);
    AttackFails(c, full, door, BRUTE_TTL - 1, n, 1, until);
    BurstFails(c, later, door, 4, Attack(door, BRUTE_TTL - 1, n), 1, until);
    var rest := Burst(door, 4) + Attack(door, BRUTE_TTL - 1, n);
    var ticked := [DoTick(1)] + rest;
    assert ticked[0] == DoTick(1) && ticked[1..] == rest;
    assert Runs(c, first, ticked) && FailuresIn(c, first, ticked, door, 1, until) == 5 * n + 4;
    run := [Guess(door)] + ticked;
    assert run[0] == Guess(door) && run[1..] == ticked;
  }
}
