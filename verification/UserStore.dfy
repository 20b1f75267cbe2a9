/** `internal/store`: the user and role tables, updated in place statement by statement. */
module UserStore {
  import opened Prelude
  import opened Uuid
  import opened Accounts
  import Order
  import Roles

  datatype Row = Row(tenant: Uuid, username: string, email: Option<string>, hash: string, deleted: bool)

  /** `Wrapped` is an error passed through `fmt.Errorf("...: %w", err)`. */
  datatype DbError = UniqueViolation | ForeignKeyViolation | Wrapped(cause: DbError)

  type RoleId = nat

  class Store {
    var rows: map<Uuid, Row>
    var userRoles: set<(Uuid, RoleId)>
    const roles: map<RoleId, string>

    constructor (roles: map<RoleId, string>)
      requires forall a, b :: a in roles && b in roles && roles[a] == roles[b] ==> a == b
      requires forall a :: a in roles ==> Roles.Clean(roles[a])
      ensures Valid() && Users() == map[] && this.roles == roles
    {
      this.roles := roles;
      rows := map[];
      userRoles := {};
    }

    /** Unique role names, fit for the aggregated column; role rows refer to users and roles. */
    ghost predicate Valid()
      reads this
    {
      && (forall a, b :: a in roles && b in roles && roles[a] == roles[b] ==> a == b)
      && (forall a :: a in roles ==> Roles.Clean(roles[a]))
      && (forall u, r :: (u, r) in userRoles ==> u in rows && r in roles)
      && UniqueIndexes(Users())
    }

    /** The names of the roles a set of role rows gives a user. */
    function NamesIn(rows: set<(Uuid, RoleId)>, id: Uuid): set<string> {
      set r | r in roles && (id, r) in rows :: roles[r]
    }

    function AccountOf(id: Uuid): Account
      requires id in rows
      reads this
    {
      Account(rows[id].tenant, rows[id].username, rows[id].email, rows[id].hash, NamesIn(userRoles, id),
              rows[id].deleted)
    }

    /** The tables as a plain value. */
    function Users(): Accounts.Users
      reads this
    {
      map id | id in rows :: AccountOf(id)
    }

    /** `scanUser`: the joined row, field by field, with its roles split back out of the aggregated column. */
    method ScanUser(id: Uuid) returns (u: User)
      requires Valid() && id in rows
      ensures u == RowOf(Users(), id)
      ensures u.id == id && u.tenant == rows[id].tenant && u.username == rows[id].username
      ensures u.email == rows[id].email && u.hash == rows[id].hash
      ensures Order.Ascending(u.roles) && multiset(u.roles) == multiset(NamesIn(userRoles, id))
    {
      var names := NamesIn(userRoles, id);
      Roles.RolesRoundTrip(names);
      Order.SortedSound(names);
      Order.SortedMultiset(names);
      var row := rows[id];
      u := User(id, row.tenant, row.username, row.email, row.hash, Roles.ScanRoles(Roles.Aggregate(names)));
    }

    method GetById(id: Uuid) returns (u: Option<User>)
      requires Valid()
      ensures u == FindById(Users(), id)
      ensures u == if id in rows && !rows[id].deleted then Some(RowOf(Users(), id)) else None
    {
      if id in rows && !rows[id].deleted {
        var found := ScanUser(id);
        u := Some(found);
      } else {
        u := None;
      }
    }

    method GetByUsernameAndTenant(tenant: Uuid, username: string) returns (u: Option<User>)
      requires Valid()
      ensures u == FindByName(Users(), tenant, username)
      ensures forall id ::
                id in rows && !rows[id].deleted && rows[id].tenant == tenant && rows[id].username == username ==>
                  u == Some(RowOf(Users(), id))
      ensures u.Some? ==> u.value.id in rows && !rows[u.value.id].deleted
      ensures u.Some? ==> u.value.tenant == tenant && u.value.username == username
    {
      if id :| id in rows && rows[id].tenant == tenant && rows[id].username == username && !rows[id].deleted {
        assert Named(Users(), id, tenant, username);
        FindByNameUnique(Users(), tenant, username, id);
        forall other | other in rows && rows[other].tenant == tenant && rows[other].username == username
                       && !rows[other].deleted
          ensures other == id
        {
          assert Named(Users(), other, tenant, username);
        }
        var found := ScanUser(id);
        u := Some(found);
      } else {
        assert forall id :: !Named(Users(), id, tenant, username);
        u := None;
      }
    }

    /** `RoleStore.IsValid`. */
    method IsValid(names: seq<string>) returns (valid: bool)
      ensures valid <==> Order.Distinct(names) && forall n :: n in names ==> n in roles.Values
    {
      Roles.IsValidIff(roles.Values, names);
      valid := |set r | r in roles.Values && r in names| == |names|;
    }

    /** Another live row stands in the way of this one in a unique index. */
    predicate Taken(id: Uuid, row: Row)
      reads this
    {
      exists other :: other in rows && other != id && !rows[other].deleted &&
        ((rows[other].tenant == row.tenant && rows[other].username == row.username)
         || (row.email.Some? && rows[other].email == row.email))
    }

    lemma TakenIffClashes(id: Uuid, row: Row, a: Account)
      requires row.tenant == a.tenant && row.username == a.username && row.email == a.email
      ensures Taken(id, row) <==> Clashes(Users(), id, a)
    {
      if Taken(id, row) {
        var other :| other in rows && other != id && !rows[other].deleted &&
          ((rows[other].tenant == row.tenant && rows[other].username == row.username)
           || (row.email.Some? && rows[other].email == row.email));
        assert Named(Users(), other, a.tenant, a.username) || (a.email.Some? && Mailed(Users(), other, a.email.value));
      }
    }

    /** INSERT; the unique indexes may refuse it, and the refusal comes back wrapped. */
    method Create(id: Uuid, tenant: Uuid, username: string, hash: string, email: Option<string>)
        returns (r: Result<Option<User>, DbError>)
      requires Valid() && id !in rows
      modifies this
      ensures Valid()
      ensures var before, row := old(Users()), Account(tenant, username, email, hash, {}, false);
              if UniqueIndexes(before[id := row])
              then Users() == before[id := row] && r == Ok(Some(RowOf(Users(), id)))
              else Users() == before && r == Err(Wrapped(UniqueViolation))
    {
      var row := Row(tenant, username, email, hash, false);
      ghost var before := Users();
      ghost var account := Account(tenant, username, email, hash, {}, false);
      TakenIffClashes(id, row, account);
      ClashExact(before, id, account);
      if Taken(id, row) {
        r := Err(Wrapped(UniqueViolation));
      } else {
        rows := rows[id := row];
        assert NamesIn(userRoles, id) == {};
        assert Users() == before[id := account];
        var found := GetById(id);
        assert Users() == before[id := account];
        r := Ok(found);
      }
    }

    /** UPDATE of a live row, with COALESCE; a violation comes back bare, and nothing is written. */
    method UpdateUser(id: Uuid, username: Option<string>, email: Option<string>) returns (r: Result<(), DbError>)
      requires Valid()
      modifies this
      ensures Valid()
      ensures var before := old(Users());
              if id !in before || before[id].deleted then r == Ok(()) && Users() == before
              else
                var row := Account(before[id].tenant,
                                   if username.Some? then username.value else before[id].username,
                                   if email.Some? then email else before[id].email,
                                   before[id].hash, before[id].roles, false);
                if UniqueIndexes(before[id := row]) then r == Ok(()) && Users() == before[id := row]
                else r == Err(UniqueViolation) && Users() == before
    {
      r := Ok(());
      ghost var before := Users();
      if id in rows && !rows[id].deleted {
        var row := rows[id].(username := if username.Some? then username.value else rows[id].username,
                             email := if email.Some? then email else rows[id].email);
        ghost var account := Profile(before[id], username, email);
        TakenIffClashes(id, row, account);
        ClashExact(before, id, account);
        if Taken(id, row) {
          r := Err(UniqueViolation);
        } else {
          rows := rows[id := row];
          assert Users() == before[id := account];
        }
      }
    }

    method UpdatePassword(id: Uuid, hash: string)
      requires Valid()
      modifies this
      ensures Valid()
      ensures var before := old(Users());
              Users() == if id in before && !before[id].deleted then before[id := before[id].(hash := hash)] else before
    {
      if id in rows && !rows[id].deleted {
        ghost var before := Users();
        rows := rows[id := rows[id].(hash := hash)];
        assert Users() == SetHash(before, id, hash);
        SameKeysUnique(before, Users());
      }
    }

    /** True exactly when a live row was there to delete. */
    method SoftDelete(id: Uuid) returns (deleted: bool)
      requires Valid()
      modifies this
      ensures Valid()
      ensures deleted <==> id in old(Users()) && !old(Users())[id].deleted
      ensures var before := old(Users());
              Users() == if deleted then before[id := before[id].(deleted := true)] else before
    {
      deleted := id in rows && !rows[id].deleted;
      if deleted {
        ghost var before := Users();
        rows := rows[id := rows[id].(deleted := true)];
        assert Users() == Accounts.SoftDelete(before, id);
        SameKeysUnique(before, Users());
      }
    }

    /** The listed names that are roles: the rows the INSERT loop adds. */
    function Known(names: seq<string>): set<string> {
      set n | n in names && n in roles.Values
    }

    /**
     Delete the user's role rows, then insert one row a known name, in one transaction.  It commits exactly when no
     known name is listed twice (the primary key) and there is a user row to refer to (the foreign key), if any row
     is inserted at all; otherwise nothing changes.
     */
    method SetRoles(id: Uuid, names: seq<string>) returns (r: Result<(), DbError>)
      requires Valid()
      modifies this
      ensures Valid()
      ensures r.Ok? <==> && (forall i, j :: 0 <= i < j < |names| && names[i] in roles.Values ==> names[i] != names[j])
                         && (id in old(Users()) || Known(names) == {})
      ensures var before := old(Users());
              Users() == if r.Ok? && id in before then before[id := before[id].(roles := Known(names))] else before
    {
      var pending := set p | p in userRoles && p.0 != id;
      ghost var kept := pending;
      for i := 0 to |names|
        invariant forall u, n :: (u, n) in pending ==> if u == id then n in roles && id in rows else (u, n) in userRoles
        invariant forall u, n :: u != id && (u, n) in userRoles ==> (u, n) in pending
        invariant NamesIn(pending, id) == Known(names[..i])
        invariant forall k, j :: 0 <= k < j < i && names[k] in roles.Values ==> names[k] != names[j]
        invariant id in rows || Known(names[..i]) == {}
      {
        ghost var before := Known(names[..i]);
        assert names[..i + 1] == names[..i] + [names[i]];
        if role :| role in roles && roles[role] == names[i] {
          assert names[i] in roles.Values;
          assert names[i] in Known(names);
          if (id, role) in pending {
            assert names[i] in NamesIn(pending, id);
            assert exists k :: 0 <= k < i && names[k] == names[i];
            return Err(UniqueViolation);
          }
          if id !in rows {
            return Err(ForeignKeyViolation);
          }
          assert forall q :: q in roles && roles[q] == names[i] ==> q == role;
          assert names[i] !in before;
          pending := pending + {(id, role)};
          assert NamesIn(pending, id) == before + {names[i]};
          assert Known(names[..i + 1]) == before + {names[i]};
        } else {
          assert names[i] !in roles.Values;
          assert Known(names[..i + 1]) == before;
        }
      }
      assert names[..|names|] == names;
      ghost var users := Users();
      userRoles := pending;
      r := Ok(());
      forall u | u in rows && u != id ensures NamesIn(pending, u) == NamesIn(old(userRoles), u) {
      }
      assert Users() == Accounts.AssignRoles(users, id, Known(names));
      SameKeysUnique(users, Users());
    }
  }
}
