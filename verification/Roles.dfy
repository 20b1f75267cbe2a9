/** Role name lists: the validity test by counting, and the comma-aggregated column read back by splitting. */
module Roles {
  import opened Prelude
  import opened Strings
  import opened Order

  // ---- the counting test ----

  /** COUNT(*) of the role rows whose name is one of the listed ones, compared with the length of the list. */
  predicate IsValid(known: set<string>, names: seq<string>) {
    |set r | r in known && r in names| == |names|
  }

  lemma {:induction false} ElementCount(xs: seq<string>)
    ensures |Elements(xs)| <= |xs|
    ensures |Elements(xs)| == |xs| <==> Distinct(xs)
  {
    if xs == [] {
      assert Elements(xs) == {};
    } else {
      var rest := xs[1..];
      ElementCount(rest);
      assert Elements(xs) == {xs[0]} + Elements(rest);
      assert xs[0] in rest <==> exists j :: 0 < j < |xs| && xs[j] == xs[0] by {
        if j :| 0 < j < |xs| && xs[j] == xs[0] { assert rest[j - 1] == xs[0]; }
      }
      assert Distinct(xs) <==> xs[0] !in rest && Distinct(rest) by {
        if Distinct(xs) {
          forall i, j | 0 <= i < j < |rest| ensures rest[i] != rest[j] {
            assert rest[i] == xs[i + 1] && rest[j] == xs[j + 1];
          }
        }
        if xs[0] !in rest && Distinct(rest) {
          forall i, j | 0 <= i < j < |xs| ensures xs[i] != xs[j] {
            assert xs[j] == rest[j - 1];
            assert i > 0 ==> xs[i] == rest[i - 1];
          }
        }
      }
    }
  }

  /** The count matches the length exactly for a duplicate-free list of existing names. */
  lemma IsValidIff(known: set<string>, names: seq<string>)
    ensures IsValid(known, names) <==> Distinct(names) && forall n :: n in names ==> n in known
  {
    var found := set r | r in known && r in names;
    ElementCount(names);
    assert found <= Elements(names);
    SubsetSize(found, Elements(names));
    if IsValid(known, names) {
      assert found == Elements(names);
      forall n | n in names ensures n in known { assert n in Elements(names); }
    }
    if Distinct(names) && forall n :: n in names ==> n in known {
      assert found == Elements(names);
    }
  }

  // ---- string_agg and strings.Split ----

  /** COALESCE(string_agg(name, ',' ORDER BY name), '') over the given names. */
  function Aggregate(names: set<string>): string {
    Join(Sorted(names), ',')
  }

  /** What `scanUser` makes of the column. */
  function ScanRoles(column: string): seq<string> {
    if column != "" then Split(column, ',') else []
  }

  /** Splitting gives back the joined list exactly when no name has a comma and the list is not one empty name. */
  lemma ScanJoin(xs: seq<string>)
    ensures ScanRoles(Join(xs, ',')) == xs <==> (forall x :: x in xs ==> Free(x, ',')) && xs != [""]
  {
    if xs == [] {
    } else if xs == [""] {
      assert Join(xs, ',') == "";
    } else {
      NonEmptyJoin(xs);
      SplitLength(Join(xs, ','), ',');
      JoinCount(xs, ',');
      if forall x :: x in xs ==> Free(x, ',') {
        SplitJoin(xs, ',');
      } else {
        assert |ScanRoles(Join(xs, ','))| > |xs|;
      }
    }
  }

  lemma NonEmptyJoin(xs: seq<string>)
    requires xs != [] && xs != [""]
    ensures Join(xs, ',') != ""
  {
  }

  /** Names that survive the aggregated column: not empty, no comma. */
  predicate Clean(name: string) {
    name != "" && Free(name, ',')
  }

  /** A user's roles are read back as the ordered list of the role names, the empty list included. */
  lemma RolesRoundTrip(names: set<string>)
    requires forall n :: n in names ==> Clean(n)
    ensures ScanRoles(Aggregate(names)) == Sorted(names)
  {
    SortedSound(names);
    assert Sorted(names) != [] ==> Sorted(names)[0] in Sorted(names);
    ScanJoin(Sorted(names));
  }

  lemma {:induction false} ElementsMultiset(xs: seq<string>)
    requires Distinct(xs)
    ensures multiset(Elements(xs)) == multiset(xs)
  {
    if xs != [] {
      var rest := xs[1..];
      assert Distinct(rest) && xs[0] !in rest;
      ElementsMultiset(rest);
      assert xs == [xs[0]] + rest;
      assert Elements(xs) == {xs[0]} + Elements(rest);
    }
  }

  /** Ordering the elements of a duplicate-free request gives the sorted permutation of the request. */
  lemma RequestedRoles(names: seq<string>)
    requires Distinct(names)
    ensures Ascending(Sorted(Elements(names))) && multiset(Sorted(Elements(names))) == multiset(names)
  {
    SortedSound(Elements(names));
    SortedMultiset(Elements(names));
    ElementsMultiset(names);
  }
}
