/** `internal/service/user.go`: sequences of store statements, each proved to be steps of the session table. */
module UserService {
  import opened Prelude
  import opened Uuid
  import opened Accounts
  import opened Keyspace
  import opened SessionTable
  import opened Refinement
  import AuthService
  import Password
  import Order
  import Roles
  import UserStore

  /** The direct type assertion of `isPgUniqueViolation`: it does not look through a wrapped error. */
  predicate IsPgUniqueViolation(e: UserStore.DbError) {
    e.UniqueViolation?
  }

  class Service {
    const users: UserStore.Store
    const auth: AuthService.Service
    const category: char -> Password.Category

    ghost predicate Valid()
      reads this, auth, auth.users, auth.rdb
    {
      auth.users == users && auth.Valid()
    }

    ghost function Table(): SessionTable.Table
      reads auth, auth.users, auth.rdb
    {
      auth.Table()
    }

    constructor (users: UserStore.Store, auth: AuthService.Service, category: char -> Password.Category)
      requires auth.users == users && auth.Valid()
      ensures Valid() && this.auth == auth && this.users == users && this.category == category
    {
      this.users, this.auth, this.category := users, auth, category;
    }

    /** Soft delete, then revoke: one atomic deletion of the table. */
    method Delete(id: Uuid) returns (r: Reply)
      requires Valid()
      modifies users, auth.rdb
      ensures Valid()
      ensures (Table(), r) == SessionTable.Delete(old(Table()), id)
      ensures var t := old(Table());
              if id !in t.users || t.users[id].deleted then r == Failed(NotFound) && Table() == t
              else
                && r == Done && Table().users == t.users[id := t.users[id].(deleted := true)]
                && (forall token :: token in Table().sessions <==> token in t.sessions && t.sessions[token].owner != id)
                && (forall token :: token in Table().sessions ==> Table().sessions[token] == t.sessions[token])
                && Table().windows == t.windows && Table().now == t.now && Table().signed == t.signed
    {
      ghost var c, st := auth.Cfg(), auth.State();
      var deleted := users.SoftDelete(id);
      if !deleted {
        assert auth.State() == st && StoresOk(c, st);
        return Failed(NotFound);
      }
      UserRevoked(c, st, id);
      auth.RevokeAllForUser(id);
      ghost var after := st.(users := SoftDelete(st.users, id), keys := RevokeKeys(st.keys, id));
      assert auth.State() == after && StoresOk(c, after);
      r := Done;
    }

    method GetById(id: Uuid) returns (r: Result<User, Error>)
      requires Valid()
      ensures var t := Table().users;
              r == if id in t && !t[id].deleted then Ok(RowOf(t, id)) else Err(NotFound)
    {
      var user := users.GetById(id);
      r := if user.None? then Err(NotFound) else Ok(user.value);
    }

    /** The list may be assigned: duplicate-free, and every name a role. */
    predicate Assignable(names: seq<string>) {
      Order.Distinct(names) && forall n :: n in names ==> n in users.roles.Values
    }

    /**
     On success the user has exactly the requested roles, returned in order.  A refused request changes something
     exactly when the target is soft-deleted and its roles differ: they are written before NotFound is returned.
     */
    method AssignRoles(userId: Uuid, roleNames: seq<string>, callerId: Uuid) returns (r: Result<User, Error>)
      requires Valid()
      modifies users
      ensures Valid()
      ensures var t := old(Table());
              if !Assignable(roleNames) then r == Err(NotFound) && Table() == t
              else if userId == callerId && "admin" !in roleNames then r == Err(Forbidden) && Table() == t
              else if userId !in t.users && roleNames != [] then r == Err(Internal) && Table() == t
              else
                && Table() == After(auth.Cfg(), t, DoStatement(Assign(userId, Order.Elements(roleNames))))
                && Table() == t.(users := if userId !in t.users then t.users
                                          else t.users[userId := t.users[userId].(roles := Order.Elements(roleNames))])
                && (if Live(t.users, userId) then r == Ok(RowOf(Table().users, userId)) else r == Err(NotFound))
      ensures r.Ok? ==> Order.Ascending(r.value.roles) && multiset(r.value.roles) == multiset(roleNames)
      ensures var t := old(Table());
              r.Err? ==>
                (Table() != t <==>
                 && Assignable(roleNames) && (userId == callerId ==> "admin" in roleNames)
                 && userId in t.users && t.users[userId].deleted && t.users[userId].roles != Order.Elements(roleNames))
    {
      AssignChanges(Table().users, userId, Order.Elements(roleNames));
      var valid := users.IsValid(roleNames);
      if !valid {
        return Err(NotFound);
      }
      if userId == callerId {
        var hasAdmin := NamesAdmin(roleNames);
        if !hasAdmin {
          return Err(Forbidden);
        }
      }
      var written := WriteRoles(userId, roleNames);
      if !written {
        return Err(Internal);
      }
      r := GetById(userId);
    }

    /** The loop that looks for the caller's own admin role. */
    method NamesAdmin(roleNames: seq<string>) returns (hasAdmin: bool)
      ensures hasAdmin <==> "admin" in roleNames
    {
      hasAdmin := false;
      for i := 0 to |roleNames|
        invariant !hasAdmin && "admin" !in roleNames[..i]
      {
        if roleNames[i] == "admin" {
          hasAdmin := true;
          break;
        }
        assert roleNames[..i + 1] == roleNames[..i] + [roleNames[i]];
      }
      assert roleNames[..|roleNames|] == roleNames;
    }

    /** `SetRoles` on a list that passed the check: it fails only for want of a user row to refer to. */
    method WriteRoles(id: Uuid, names: seq<string>) returns (written: bool)
      requires Valid() && Assignable(names)
      modifies users
      ensures Valid()
      ensures written <==> id in old(Table()).users || names == []
      ensures Table() == if written then After(auth.Cfg(), old(Table()), DoStatement(Assign(id, Order.Elements(names))))
                         else old(Table())
      ensures written ==> (Live(Table().users, id) <==> Live(old(Table()).users, id))
      ensures written && Live(Table().users, id) ==>
                && Order.Ascending(RowOf(Table().users, id).roles)
                && multiset(RowOf(Table().users, id).roles) == multiset(names)
    {
      AssignableNames(names);
      Roles.RequestedRoles(names);
      ghost var c, st := auth.Cfg(), auth.State();
      ghost var q := Assign(id, Order.Elements(names));
      var result := users.SetRoles(id, names);
      written := result.Ok?;
      if written {
        RowsChanged(c, st, q);
        ghost var after := st.(users := Apply(st.users, q));
        assert auth.State() == after && StoresOk(c, after);
      } else {
        assert auth.State() == st && StoresOk(c, st);
      }
    }

    lemma AssignableNames(names: seq<string>)
      requires users.Valid() && Assignable(names)
      ensures users.Known(names) == Order.Elements(names)
      ensures forall r :: r in Order.Elements(names) ==> Roles.Clean(r)
      ensures users.Known(names) == {} <==> names == []
    {
      if names != [] { assert names[0] in users.Known(names); }
      forall r | r in Order.Elements(names) ensures Roles.Clean(r) {
        var id :| id in users.roles && users.roles[id] == r;
      }
    }

    /** `id` and `salt` are the drawn row id and salt.  A clash is an internal error, never Conflict. */
    method Create(tenant: Uuid, username: string, plain: string, roleNames: seq<string>, email: Option<string>,
                  id: Uuid, salt: seq<Octet>) returns (r: Result<User, Error>)
      requires Valid() && id !in Table().users
      modifies users
      ensures Valid()
      ensures var c, t := auth.Cfg(), old(Table());
              var row := Account(tenant, username, email, Password.Hash(auth.kdf, plain, salt), {}, false);
              var roles := Order.Elements(roleNames);
              if !Password.Accepts(plain, category) then r == Err(PasswordPolicy) && Table() == t
              else if !Assignable(roleNames) then r == Err(NotFound) && Table() == t
              else if !UniqueIndexes(t.users[id := row]) then r == Err(Internal) && Table() == t
              else
                && Table() == After(c, After(c, t, DoStatement(SessionTable.Create(id, row))),
                                    DoStatement(Assign(id, roles)))
                && Table() == t.(users := t.users[id := row.(roles := roles)])
                && r == Ok(User(id, tenant, username, email, row.hash, Order.Sorted(roles)))
                && multiset(r.value.roles) == multiset(roleNames)
    {
      var policy := Password.Validate(plain, category);
      if policy.Some? {
        return Err(PasswordPolicy);
      }
      var valid := users.IsValid(roleNames);
      if !valid {
        return Err(NotFound);
      }
      var hash := Password.Hash(auth.kdf, plain, salt);
      ghost var t := Table();
      var created := InsertRow(id, tenant, username, hash, email);
      if created.Err? {
        return Err(if IsPgUniqueViolation(created.error) then Conflict else Internal);
      }
      var user := Furnish(id, roleNames);
      r := Ok(user);
      ghost var row := Account(tenant, username, email, hash, {}, false);
      RowWithRoles(t.users, id, row, Order.Elements(roleNames));
    }

    /** The end of `Create`: give the inserted row its roles and read it back. */
    method Furnish(id: Uuid, roleNames: seq<string>) returns (user: User)
      requires Valid() && Live(Table().users, id) && Assignable(roleNames)
      modifies users
      ensures Valid()
      ensures Table() == After(auth.Cfg(), old(Table()), DoStatement(Assign(id, Order.Elements(roleNames))))
      ensures var t, roles := old(Table()), Order.Elements(roleNames);
              && Table() == t.(users := t.users[id := t.users[id].(roles := roles)])
              && user == RowOf(Table().users, id) && multiset(user.roles) == multiset(roleNames)
    {
      var written := WriteRoles(id, roleNames);
      var found := users.GetById(id);
      user := found.value;
    }

    method InsertRow(id: Uuid, tenant: Uuid, username: string, hash: string, email: Option<string>)
        returns (r: Result<Option<User>, UserStore.DbError>)
      requires Valid() && id !in Table().users
      modifies users
      ensures Valid()
      ensures var row := Account(tenant, username, email, hash, {}, false);
              && (r.Err? <==> !UniqueIndexes(old(Table()).users[id := row]))
              && (r.Err? ==> r.error == UserStore.Wrapped(UserStore.UniqueViolation) && Table() == old(Table()))
              && (r.Ok? ==> Table() == After(auth.Cfg(), old(Table()), DoStatement(SessionTable.Create(id, row)))
                            && Table() == old(Table()).(users := old(Table()).users[id := row]))
    {
      ghost var c, st := auth.Cfg(), auth.State();
      ghost var row := Account(tenant, username, email, hash, {}, false);
      ghost var q := SessionTable.Create(id, row);
      ClashExact(st.users, id, row);
      RowsChanged(c, st, q);
      r := users.Create(id, tenant, username, hash, email);
      ghost var after := st.(users := Apply(st.users, q));
      assert auth.State() == after && StoresOk(c, after);
    }

    /**
     The profile first, then the password.  A clash of the profile changes nothing and is Conflict; a password that
     breaks the policy is refused after the profile was changed.
     */
    method Update(id: Uuid, username: Option<string>, email: Option<string>, password: Option<string>, salt: seq<Octet>)
        returns (r: Result<User, Error>)
      requires Valid()
      modifies users
      ensures Valid()
      ensures var refused := password.Some? && !Password.Accepts(password.value, category);
              var hash := if password.Some? then Some(Password.Hash(auth.kdf, password.value, salt)) else None;
              && UpdateSteps(auth.Cfg(), old(Table()), Table(), r, id, username, email, hash, refused)
              && Updated(old(Table()), Table(), r, id, username, email, hash, refused)
    {
      ghost var t := Table();
      ghost var refused := password.Some? && !Password.Accepts(password.value, category);
      ghost var hash := if password.Some? then Some(Password.Hash(auth.kdf, password.value, salt)) else None;
      if username.Some? || email.Some? {
        var updated := ChangeProfile(id, username, email);
        if updated.Err? {
          r := Err(if IsPgUniqueViolation(updated.error) then Conflict else Internal);
          UpdateMeaning(auth.Cfg(), t, Table(), r, id, username, email, hash, refused);
          return;
        }
      } else {
        NoChange(t.users, id);
      }
      ghost var profile := Table();
      assert profile == After(auth.Cfg(), t, DoStatement(SessionTable.Update(id, username, email)));
      assert Live(profile.users, id) <==> Live(t.users, id);
      r := NewPassword(id, password, salt);
      UpdateMeaning(auth.Cfg(), t, Table(), r, id, username, email, hash, refused);
    }

    /** The second half of `Update`, from the password on. */
    method NewPassword(id: Uuid, password: Option<string>, salt: seq<Octet>) returns (r: Result<User, Error>)
      requires Valid()
      modifies users
      ensures Valid()
      ensures if password.Some? && !Password.Accepts(password.value, category)
              then r == Err(PasswordPolicy) && Table() == old(Table())
              else
                && Table() == (if password.None? then old(Table())
                               else
                                 var hash := Password.Hash(auth.kdf, password.value, salt);
                                 After(auth.Cfg(), old(Table()), DoStatement(Rehash(id, hash))))
                && r == if Live(old(Table()).users, id) then Ok(RowOf(Table().users, id)) else Err(NotFound)
    {
      if password.Some? {
        var policy := Password.Validate(password.value, category);
        if policy.Some? {
          return Err(PasswordPolicy);
        }
        ChangePassword(id, Password.Hash(auth.kdf, password.value, salt));
      }
      r := GetById(id);
    }

    method ChangeProfile(id: Uuid, username: Option<string>, email: Option<string>)
        returns (r: Result<(), UserStore.DbError>)
      requires Valid()
      modifies users
      ensures Valid()
      ensures Table() == After(auth.Cfg(), old(Table()), DoStatement(SessionTable.Update(id, username, email)))
      ensures var rows := old(Table()).users;
              r.Err? <==> Live(rows, id) && Clashes(rows, id, Profile(rows[id], username, email))
      ensures r.Err? ==> r.error == UserStore.UniqueViolation && Table() == old(Table())
    {
      ghost var c, st, q := auth.Cfg(), auth.State(), SessionTable.Update(id, username, email);
      RowsChanged(c, st, q);
      if Live(st.users, id) {
        ClashExact(st.users, id, Profile(st.users[id], username, email));
      }
      r := users.UpdateUser(id, username, email);
      assert auth.State() == st.(users := Apply(st.users, q));
    }

    method ChangePassword(id: Uuid, hash: string)
      requires Valid()
      modifies users
      ensures Valid()
      ensures Table() == After(auth.Cfg(), old(Table()), DoStatement(Rehash(id, hash)))
    {
      ghost var c, st, q := auth.Cfg(), auth.State(), Rehash(id, hash);
      RowsChanged(c, st, q);
      users.UpdatePassword(id, hash);
      assert auth.State() == st.(users := Apply(st.users, q));
    }
  }

  /** The steps of an update, from table `t` to table `after`: the profile's statement, then the password's. */
  ghost predicate UpdateSteps(c: Config, t: SessionTable.Table, after: SessionTable.Table, r: Result<User, Error>,
                              id: Uuid, username: Option<string>, email: Option<string>, hash: Option<string>,
                              refused: bool)
  {
    var profile := After(c, t, DoStatement(SessionTable.Update(id, username, email)));
    if Live(t.users, id) && (username.Some? || email.Some?)
       && Clashes(t.users, id, Profile(t.users[id], username, email))
    then r == Err(Conflict) && after == t
    else if refused then r == Err(PasswordPolicy) && after == profile
    else
      && after == (if hash.None? then profile else After(c, profile, DoStatement(Rehash(id, hash.value))))
      && r == if Live(t.users, id) then Ok(RowOf(after.users, id)) else Err(NotFound)
  }

  /**
   What it comes to, field by field: `hash` is the new password's, if one is given, and `refused` says that it breaks
   the policy.  Of the whole table only the one row changes.
   */
  ghost predicate Updated(t: SessionTable.Table, after: SessionTable.Table, r: Result<User, Error>, id: Uuid,
                          username: Option<string>, email: Option<string>, hash: Option<string>, refused: bool)
  {
    if id !in t.users || t.users[id].deleted
    then after == t && r == Err(if refused then PasswordPolicy else NotFound)
    else
      var row := t.users[id];
      var profile := Account(row.tenant, if username.Some? then username.value else row.username,
                             if email.Some? then email else row.email, row.hash, row.roles, false);
      var changed := profile.(hash := if hash.Some? then hash.value else row.hash);
      if !UniqueIndexes(t.users[id := profile]) then r == Err(Conflict) && after == t
      else if refused then r == Err(PasswordPolicy) && after == t.(users := t.users[id := profile])
      else
        && after == t.(users := t.users[id := changed])
        && r == Ok(User(id, row.tenant, changed.username, changed.email, changed.hash, Order.Sorted(row.roles)))
  }

  lemma UpdateMeaning(c: Config, t: SessionTable.Table, after: SessionTable.Table, r: Result<User, Error>, id: Uuid,
                      username: Option<string>, email: Option<string>, hash: Option<string>, refused: bool)
    requires UniqueIndexes(t.users)
    requires UpdateSteps(c, t, after, r, id, username, email, hash, refused)
    ensures Updated(t, after, r, id, username, email, hash, refused)
  {
    if Live(t.users, id) {
      var profile := Profile(t.users[id], username, email);
      ClashExact(t.users, id, profile);
      assert profile == t.users[id] ==> t.users[id := profile] == t.users;
    }
  }

  /** An update that is refused changes something exactly for a new, clash-free profile with a refused password. */
  lemma RefusedUpdate(t: SessionTable.Table, after: SessionTable.Table, r: Result<User, Error>, id: Uuid,
                      username: Option<string>, email: Option<string>, hash: Option<string>, refused: bool)
    requires Updated(t, after, r, id, username, email, hash, refused) && r.Err?
    ensures after != t <==>
              && id in t.users && !t.users[id].deleted && refused
              && ((username.Some? && username.value != t.users[id].username)
                  || (email.Some? && email != t.users[id].email))
              && UniqueIndexes(t.users[id := Account(t.users[id].tenant,
                                                     if username.Some? then username.value else t.users[id].username,
                                                     if email.Some? then email else t.users[id].email,
                                                     t.users[id].hash, t.users[id].roles, false)])
  {
    if id in t.users && !t.users[id].deleted {
      assert t.users[id := t.users[id]] == t.users;
    }
  }

  lemma RowWithRoles(users: Users, id: Uuid, row: Account, roles: set<string>)
    ensures users[id := row][id := row.(roles := roles)] == users[id := row.(roles := roles)]
  {
  }

  lemma NoChange(users: Users, id: Uuid)
    ensures UpdateProfile(users, id, None, None) == users
  {
  }
}
