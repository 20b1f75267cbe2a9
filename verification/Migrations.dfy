/** `internal/db/db.go`: the migration loop, alone and under concurrent runners that may crash at any point. */
module Migrations {
  import opened Prelude
  import opened Order

  const SUFFIX := ".up.sql"

  predicate HasSuffix(name: string) {
    |SUFFIX| <= |name| && name[|name| - |SUFFIX|..] == SUFFIX
  }

  function TrimSuffix(name: string): string
    requires HasSuffix(name)
  {
    name[..|name| - |SUFFIX|]
  }

  /** The version of an up file; nothing for another entry. */
  function VersionOf(entry: string): seq<string> {
    if HasSuffix(entry) then [TrimSuffix(entry)] else []
  }

  function Collect(xs: seq<string>, f: string -> seq<string>): seq<string> {
    if xs == [] then [] else f(xs[0]) + Collect(xs[1..], f)
  }

  /** The versions of the up files among the entries, in the order of the entries. */
  function VersionsOf(entries: seq<string>): seq<string> {
    Collect(entries, VersionOf)
  }

  /** The embedded directory's versions, by file name. */
  function Versions(files: set<string>): seq<string> {
    VersionsOf(Sorted(files))
  }

  lemma {:induction false} VersionsOfDistinct(entries: seq<string>)
    requires Distinct(entries)
    ensures Distinct(VersionsOf(entries))
    ensures forall v :: v in VersionsOf(entries) <==> v + SUFFIX in entries
  {
    if entries != [] {
      var rest := entries[1..];
      assert forall i, j :: 0 <= i < j < |rest| ==> rest[i] == entries[i + 1] && rest[j] == entries[j + 1];
      VersionsOfDistinct(rest);
      assert entries == [entries[0]] + rest;
      if HasSuffix(entries[0]) {
        var v := TrimSuffix(entries[0]);
        assert v + SUFFIX == entries[0];
        assert entries[0] !in rest;
        assert v !in VersionsOf(rest);
      }
      forall v ensures v in VersionsOf(entries) <==> v + SUFFIX in entries {
        if v + SUFFIX == entries[0] {
          assert HasSuffix(entries[0]) && TrimSuffix(entries[0]) == v;
        }
      }
    }
  }

  /** The versions come in the order of their file names. */
  predicate Ordered(vs: seq<string>) {
    forall i, j :: 0 <= i < j < |vs| ==> LessEq(vs[i] + ".up.sql", vs[j] + ".up.sql")
  }

  lemma OrderedCons(v: string, later: seq<string>)
    requires Ordered(later) && forall w :: w in later ==> LessEq(v + ".up.sql", w + ".up.sql")
    ensures Ordered([v] + later)
  {
    var vs := [v] + later;
    forall i, j | 0 <= i < j < |vs| ensures LessEq(vs[i] + ".up.sql", vs[j] + ".up.sql") {
      assert vs[j] == later[j - 1] && later[j - 1] in later;
      assert i > 0 ==> vs[i] == later[i - 1];
    }
  }

  lemma Tails(entries: seq<string>)
    requires entries != [] && Distinct(entries) && Ascending(entries)
    ensures Distinct(entries[1..]) && Ascending(entries[1..])
    ensures forall x :: x in entries[1..] ==> LessEq(entries[0], x)
  {
    var rest := entries[1..];
    assert forall i :: 0 <= i < |rest| ==> rest[i] == entries[i + 1];
  }

  lemma {:induction false} VersionsOrdered(entries: seq<string>)
    requires Distinct(entries) && Ascending(entries)
    ensures Ordered(VersionsOf(entries))
  {
    if entries != [] {
      var first, rest := entries[0], entries[1..];
      Tails(entries);
      VersionsOrdered(rest);
      VersionsOfDistinct(rest);
      if HasSuffix(first) {
        assert TrimSuffix(first) + SUFFIX == first;
        OrderedCons(TrimSuffix(first), VersionsOf(rest));
      }
    }
  }

  /** Each up file gives one version, no version comes twice, and they come in the order of the file names. */
  lemma VersionsSound(files: set<string>)
    ensures Distinct(Versions(files))
    ensures forall v :: v in Versions(files) <==> v + ".up.sql" in files
    ensures Ordered(Versions(files))
  {
    SortedSound(files);
    VersionsOrdered(Sorted(files));
    VersionsOfDistinct(Sorted(files));
  }

  lemma {:induction false} CollectCons(x: string, rest: seq<string>, f: string -> seq<string>)
    ensures Collect([x] + rest, f) == f(x) + Collect(rest, f)
  {
  }

  lemma {:induction false} CollectConcat(a: seq<string>, b: seq<string>, f: string -> seq<string>)
    ensures Collect(a + b, f) == Collect(a, f) + Collect(b, f)
  {
    if a == [] {
      assert a + b == b;
    } else {
      var head, rest := a[0], a[1..];
      assert a == [head] + rest && a + b == [head] + (rest + b);
      CollectCons(head, rest, f);
      CollectCons(head, rest + b, f);
      CollectConcat(rest, b, f);
    }
  }

  /** One more entry adds its version, if it is an up file, at its place in the whole list. */
  lemma EntryStep(entries: seq<string>, n: nat)
    requires n < |entries|
    ensures VersionsOf(entries[..n + 1]) == VersionsOf(entries[..n]) + VersionOf(entries[n])
    ensures VersionsOf(entries[..n + 1]) <= VersionsOf(entries)
  {
    CollectConcat(entries[..n], [entries[n]], VersionOf);
    CollectCons(entries[n], [], VersionOf);
    assert [entries[n]] + [] == [entries[n]];
    var head, rest := entries[..n + 1], entries[n + 1..];
    assert head == entries[..n] + [entries[n]];
    assert entries == head + rest;
    CollectConcat(head, rest, VersionOf);
  }

  // ---- concurrent runners ----

  type Rid = nat

  datatype Runner =
    | Reading                                    // about to read the applied versions
    | At(i: nat, applied: set<string>)           // in the loop, before version i
    | Executed(i: nat, applied: set<string>)     // transaction open, file i executed
    | Recorded(i: nat, applied: set<string>)     // version row inserted, not committed
    | Returned(ok: bool)

  /** `log` is what took effect, in order; `claims` are the uncommitted version rows and who holds them. */
  datatype Db = Db(rows: set<string>, log: seq<string>, claims: map<string, Rid>, runners: map<Rid, Runner>)

  datatype Action =
    | Launch(r: Rid)
    | Read(r: Rid, seen: set<string>)   // the rows read before the cursor ended; its error is not looked at
    | Loop(r: Rid)                      // return at the end of the list, or skip an applied version
    | Execute(r: Rid)
    | Insert(r: Rid)
    | Commit(r: Rid)
    | Fail(r: Rid, took: bool)          // an error is returned; a failed commit may still have taken effect
    | Crash(r: Rid, took: bool)

  predicate Enabled(vs: seq<string>, db: Db, a: Action) {
    match a
    case Launch(r) => r !in db.runners
    case Read(r, seen) =>
      r in db.runners && db.runners[r].Reading? && seen <= db.rows
    case Loop(r) =>
      r in db.runners && db.runners[r].At?
      && (db.runners[r].i >= |vs| || vs[db.runners[r].i] in db.runners[r].applied)
    case Execute(r) =>
      r in db.runners && db.runners[r].At? && db.runners[r].i < |vs|
      && vs[db.runners[r].i] !in db.runners[r].applied
    case Insert(r) => // blocked while another transaction holds the row
      r in db.runners && db.runners[r].Executed? && db.runners[r].i < |vs| && vs[db.runners[r].i] !in db.claims
    case Commit(r) =>
      r in db.runners && db.runners[r].Recorded? && db.runners[r].i < |vs|
    case Fail(r, took) =>
      r in db.runners && !db.runners[r].Returned?
      && (took ==> db.runners[r].Recorded? && db.runners[r].i < |vs|)
    case Crash(r, took) =>
      r in db.runners && !db.runners[r].Returned?
      && (took ==> db.runners[r].Recorded? && db.runners[r].i < |vs|)
  }

  /** The transaction of `r` ends; if it took effect, its version is recorded and its file applied. */
  function End(vs: seq<string>, db: Db, r: Rid, took: bool): Db
    requires r in db.runners && (took ==> db.runners[r].Recorded? && db.runners[r].i < |vs|)
  {
    var released := db.(claims := map v | v in db.claims && db.claims[v] != r :: db.claims[v]);
    if took then released.(rows := db.rows + {vs[db.runners[r].i]}, log := db.log + [vs[db.runners[r].i]]) else released
  }

  function Goto(db: Db, r: Rid, next: Runner): Db {
    db.(runners := db.runners[r := next])
  }

  function After(vs: seq<string>, db: Db, a: Action): Db
    requires Enabled(vs, db, a)
  {
    match a
    case Launch(r) => Goto(db, r, Reading)
    case Read(r, seen) => Goto(db, r, At(0, seen))
    case Loop(r) =>
      var p := db.runners[r];
      if p.i >= |vs| then Goto(db, r, Returned(true)) else Goto(db, r, At(p.i + 1, p.applied))
    case Execute(r) => Goto(db, r, Executed(db.runners[r].i, db.runners[r].applied))
    case Insert(r) =>
      var p := db.runners[r];
      if vs[p.i] in db.rows then Goto(db, r, Returned(false))   // the primary key refuses the row
      else Goto(db.(claims := db.claims[vs[p.i] := r]), r, Recorded(p.i, p.applied))
    case Commit(r) =>
      var p := db.runners[r];
      Goto(End(vs, db, r, true), r, At(p.i + 1, p.applied))
    case Fail(r, took) => Goto(End(vs, db, r, took), r, Returned(false))
    case Crash(r, took) => var ended := End(vs, db, r, took); ended.(runners := ended.runners - {r})
  }

  predicate Runs(vs: seq<string>, db: Db, run: seq<Action>)
    decreases |run|
  {
    run == [] || (Enabled(vs, db, run[0]) && Runs(vs, After(vs, db, run[0]), run[1..]))
  }

  function Exec(vs: seq<string>, db: Db, run: seq<Action>): Db
    requires Runs(vs, db, run)
    decreases |run|
  {
    if run == [] then db else Exec(vs, After(vs, db, run[0]), run[1..])
  }

  const EMPTY := Db({}, [], map[], map[])

  /** The committed versions are a prefix of the list, in order, once each. */
  predicate PrefixApplied(vs: seq<string>, db: Db) {
    db.log <= vs && db.rows == Elements(db.log)
  }

  predicate RunnerOk(vs: seq<string>, db: Db, r: Rid)
    requires r in db.runners
  {
    match db.runners[r]
    case Reading => true
    case Returned(ok) => ok ==> db.log == vs
    case At(i, applied) => i <= |vs| && i <= |db.log| && applied <= db.rows
    case Executed(i, applied) => i < |vs| && i <= |db.log| && applied <= db.rows
    case Recorded(i, applied) =>
      i < |vs| && i <= |db.log| && applied <= db.rows && vs[i] in db.claims && db.claims[vs[i]] == r
  }

  predicate Inv(vs: seq<string>, db: Db) {
    && PrefixApplied(vs, db)
    && (forall r :: r in db.runners ==> RunnerOk(vs, db, r))
    && (forall v :: v in db.claims ==> v !in db.rows)
  }

  /** In a duplicate-free list, the versions of a prefix are the first ones and no others. */
  lemma InLog(vs: seq<string>, log: seq<string>, i: nat)
    requires Distinct(vs) && log <= vs && i < |vs|
    ensures vs[i] in Elements(log) <==> i < |log|
  {
  }

  /** A transaction that holds the row of version i is the one that extends the prefix by it. */
  lemma EndInv(vs: seq<string>, db: Db, r: Rid, took: bool)
    requires Distinct(vs) && Inv(vs, db) && r in db.runners && (took ==> db.runners[r].Recorded?)
    ensures took ==> db.runners[r].i < |vs|
    ensures var after := End(vs, db, r, took);
            PrefixApplied(vs, after) && (forall v :: v in after.claims ==> v !in after.rows)
            && (took ==> |after.log| == db.runners[r].i + 1)
            && after.runners == db.runners && db.log <= after.log && db.rows <= after.rows
            && (forall q :: q in db.runners && q != r ==> RunnerOk(vs, after, q))
  {
  }

  lemma StepInv(vs: seq<string>, db: Db, a: Action)
    requires Distinct(vs) && Inv(vs, db) && Enabled(vs, db, a)
    ensures Inv(vs, After(vs, db, a))
    ensures db.log <= After(vs, db, a).log
  {
    assert a.Launch? || RunnerOk(vs, db, a.r);
    match a
    case Commit(r) => EndInv(vs, db, r, true);
    case Fail(r, took) => EndInv(vs, db, r, took);
    case Crash(r, took) => CrashInv(vs, db, r, took);
    case Loop(r) =>
      if db.runners[r].i < |vs| { InLog(vs, db.log, db.runners[r].i); }
      MoveInv(vs, db, After(vs, db, a), r);
    case _ => MoveInv(vs, db, After(vs, db, a), a.r);
  }

  lemma CrashInv(vs: seq<string>, db: Db, r: Rid, took: bool)
    requires Distinct(vs) && Inv(vs, db) && Enabled(vs, db, Crash(r, took))
    ensures var after := After(vs, db, Crash(r, took)); Inv(vs, after) && db.log <= after.log
  {
  }

  /** A step of `r` that commits nothing keeps the invariant, if `r` itself is still well placed. */
  lemma MoveInv(vs: seq<string>, db: Db, after: Db, r: Rid)
    requires Inv(vs, db) && after.rows == db.rows && after.log == db.log
    requires r in after.runners && RunnerOk(vs, after, r) && after.runners == db.runners[r := after.runners[r]]
    requires forall v :: v in db.claims ==> v in after.claims && after.claims[v] == db.claims[v]
    requires forall v :: v in after.claims ==> v !in after.rows
    ensures Inv(vs, after)
  {
  }

  /**
   With any number of runners and crashes anywhere, from an empty table: what has been applied is always a prefix of
   the versions by file name, each applied once and in order, and recorded; and a runner that returned without an
   error leaves the whole list applied.
   */
  lemma AlwaysPrefix(files: set<string>, run: seq<Action>)
    requires Runs(Versions(files), EMPTY, run)
    ensures var end := Exec(Versions(files), EMPTY, run);
            end.log <= Versions(files) && Distinct(end.log) && end.rows == Elements(end.log)
            && forall r :: r in end.runners && end.runners[r] == Returned(true) ==> end.log == Versions(files)
  {
    VersionsSound(files);
    RunInv(Versions(files), EMPTY, run);
    var end := Exec(Versions(files), EMPTY, run);
    assert forall r :: r in end.runners ==> RunnerOk(Versions(files), end, r);
  }

  lemma {:induction false} RunInv(vs: seq<string>, db: Db, run: seq<Action>)
    requires Distinct(vs) && Inv(vs, db) && Runs(vs, db, run)
    ensures Inv(vs, Exec(vs, db, run)) && db.log <= Exec(vs, db, run).log
    decreases |run|
  {
    if run != [] {
      StepInv(vs, db, run[0]);
      RunInv(vs, After(vs, db, run[0]), run[1..]);
    }
  }

  /** Once the list is applied, no further run changes anything. */
  lemma RerunChangesNothing(files: set<string>, before: seq<Action>, rerun: seq<Action>)
    requires Runs(Versions(files), EMPTY, before) && Runs(Versions(files), Exec(Versions(files), EMPTY, before), rerun)
    requires Exec(Versions(files), EMPTY, before).log == Versions(files)
    ensures var db := Exec(Versions(files), EMPTY, before);
            Exec(Versions(files), db, rerun).log == db.log && Exec(Versions(files), db, rerun).rows == db.rows
  {
    var vs := Versions(files);
    VersionsSound(files);
    RunInv(vs, EMPTY, before);
    RunInv(vs, Exec(vs, EMPTY, before), rerun);
  }

  // ---- one runner, statement by statement ----

  class Database {
    var rows: set<string>
    /** History: the files applied, in order. */
    ghost var log: seq<string>

    constructor ()
      ensures rows == {} && log == []
    {
      rows, log := {}, [];
    }

    /** Execute the file and record its version, in one transaction. */
    method Apply(version: string, broken: bool) returns (ok: bool)
      modifies this
      ensures ok <==> !broken && version !in old(rows)
      ensures if ok then rows == old(rows) + {version} && log == old(log) + [version]
              else rows == old(rows) && log == old(log)
    {
      ok := !broken && version !in rows;
      if ok {
        rows, log := rows + {version}, log + [version];
      }
    }

    /**
     `Migrate` with nobody else running; `broken` are the files whose SQL fails.  It applies what is pending, in
     order, up to the first broken file, which it reports.
     */
    method Migrate(files: set<string>, broken: set<string>) returns (err: Option<string>)
      requires log <= Versions(files) && rows == Elements(log)
      modifies this
      ensures old(log) <= log <= Versions(files) && rows == Elements(log)
      ensures forall k :: |old(log)| <= k < |log| ==> log[k] !in broken
      ensures err == if log == Versions(files) then None else Some(Versions(files)[|log|])
      ensures err.Some? ==> err.value in broken
    {
      // Read the applied versions row by row.
      var applied: map<string, bool> := map[];
      var unread := rows;
      while unread != {}
        invariant unread <= rows && applied.Keys == rows - unread
      {
        var v :| v in unread;
        applied := applied[v := true];
        unread := unread - {v};
      }

      var entries := Sorted(files);
      ghost var vs := Versions(files);
      VersionsSound(files);
      for n := 0 to |entries|
        invariant old(log) <= log <= vs && rows == Elements(log)
        invariant applied.Keys == Elements(old(log))
        invariant |VersionsOf(entries[..n])| <= |log|
        invariant |log| == |VersionsOf(entries[..n])| || log == old(log)
        invariant VersionsOf(entries[..n]) <= vs
        invariant forall k :: |old(log)| <= k < |log| ==> log[k] !in broken
      {
        var name := entries[n];
        EntryStep(entries, n);
        if HasSuffix(name) {
          var version := TrimSuffix(name);
          ghost var i := |VersionsOf(entries[..n])|;
          assert version == vs[i];
          InLog(vs, old(log), i);
          InLog(vs, log, i);
          if version !in applied {
            assert i == |log|;
            var ok := Apply(version, version in broken);
            if !ok {
              assert log < vs;
              return Some(version);
            }
            assert vs[..i + 1] == vs[..i] + [vs[i]];
          }
        }
      }
      assert entries[..|entries|] == entries;
      err := None;
    }
  }
}
