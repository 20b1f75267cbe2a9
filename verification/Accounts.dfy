/** The users as Postgres holds them, as plain values, and the SQL statements of the user store as functions. */
module Accounts {
  import opened Prelude
  import opened Uuid
  import Order
  import Roles

  datatype Account = Account(tenant: Uuid, username: string, email: Option<string>, hash: string,
                             roles: set<string>, deleted: bool)

  type Users = map<Uuid, Account>

  /** A row as the service reads it. */
  datatype User = User(id: Uuid, tenant: Uuid, username: string, email: Option<string>, hash: string,
                       roles: seq<string>)

  predicate Live(users: Users, id: Uuid) {
    id in users && !users[id].deleted
  }

  predicate Named(users: Users, id: Uuid, tenant: Uuid, username: string) {
    Live(users, id) && users[id].tenant == tenant && users[id].username == username
  }

  predicate Mailed(users: Users, id: Uuid, email: string) {
    Live(users, id) && users[id].email == Some(email)
  }

  /** The two partial unique indexes, on live rows. */
  ghost predicate UniqueIndexes(users: Users) {
    && (forall a, b, t, n :: Named(users, a, t, n) && Named(users, b, t, n) ==> a == b)
    && (forall a, b, m :: Mailed(users, a, m) && Mailed(users, b, m) ==> a == b)
  }

  ghost predicate CleanRoles(users: Users) {
    forall u, r :: u in users && r in users[u].roles ==> Roles.Clean(r)
  }

  function RowOf(users: Users, id: Uuid): User
    requires id in users
  {
    var a := users[id];
    User(id, a.tenant, a.username, a.email, a.hash, Order.Sorted(a.roles))
  }

  /** SELECT by id: soft-deleted rows are not seen. */
  function FindById(users: Users, id: Uuid): Option<User> {
    if Live(users, id) then Some(RowOf(users, id)) else None
  }

  /** SELECT by tenant and user name: soft-deleted rows are not seen. */
  ghost function FindByName(users: Users, tenant: Uuid, username: string): Option<User> {
    if id :| Named(users, id, tenant, username) then Some(RowOf(users, id)) else None
  }

  function SoftDelete(users: Users, id: Uuid): Users {
    if Live(users, id) then users[id := users[id].(deleted := true)] else users
  }

  function AssignRoles(users: Users, id: Uuid, roles: set<string>): Users {
    if id in users then users[id := users[id].(roles := roles)] else users
  }

  function SetHash(users: Users, id: Uuid, hash: string): Users {
    if Live(users, id) then users[id := users[id].(hash := hash)] else users
  }

  /** The row after UPDATE with COALESCE: an absent field keeps its value. */
  function Profile(a: Account, username: Option<string>, email: Option<string>): Account {
    a.(username := if username.Some? then username.value else a.username,
       email := if email.Some? then email else a.email)
  }

  /** Another live row already holds the account's name in its tenant, or its mail address. */
  ghost predicate Clashes(users: Users, id: Uuid, a: Account) {
    exists other :: other != id &&
      (Named(users, other, a.tenant, a.username) || (a.email.Some? && Mailed(users, other, a.email.value)))
  }

  /** UPDATE of the profile; a clash with a unique index changes nothing. */
  ghost function UpdateProfile(users: Users, id: Uuid, username: Option<string>, email: Option<string>): Users {
    if Live(users, id) && !Clashes(users, id, Profile(users[id], username, email))
    then users[id := Profile(users[id], username, email)] else users
  }

  /** INSERT of a fresh row without roles; a clash with a unique index changes nothing. */
  ghost function Insert(users: Users, id: Uuid, a: Account): Users {
    if Clashes(users, id, a) then users else users[id := a]
  }

  /** The unique indexes make the row found by name the only candidate. */
  lemma FindByNameUnique(users: Users, tenant: Uuid, username: string, id: Uuid)
    requires UniqueIndexes(users) && Named(users, id, tenant, username)
    ensures FindByName(users, tenant, username) == Some(RowOf(users, id))
  {
  }

  lemma AssignChanges(users: Users, id: Uuid, roles: set<string>)
    ensures AssignRoles(users, id, roles) != users <==> id in users && users[id].roles != roles
  {
    if id in users && users[id].roles == roles {
      assert users[id := users[id].(roles := roles)] == users;
    }
  }

  lemma ProfileChanges(users: Users, id: Uuid, username: Option<string>, email: Option<string>)
    ensures UpdateProfile(users, id, username, email) != users
       <==> Live(users, id) && Profile(users[id], username, email) != users[id]
            && !Clashes(users, id, Profile(users[id], username, email))
  {
    if Live(users, id) && Profile(users[id], username, email) == users[id] {
      assert users[id := users[id]] == users;
    }
  }

  /** What no statement on a row may do: move it to another tenant, or bring it back from deletion. */
  predicate Evolves(before: Users, after: Users) {
    forall u :: u in before ==>
      u in after && after[u].tenant == before[u].tenant && (before[u].deleted ==> after[u].deleted)
  }

  /** Every statement of the store keeps the unique indexes, and only evolves rows. */
  lemma StatementsEvolve(users: Users, id: Uuid, username: Option<string>, email: Option<string>, hash: string,
                         roles: set<string>, row: Account)
    requires UniqueIndexes(users)
    ensures Evolves(users, SoftDelete(users, id)) && UniqueIndexes(SoftDelete(users, id))
    ensures Evolves(users, AssignRoles(users, id, roles)) && UniqueIndexes(AssignRoles(users, id, roles))
    ensures Evolves(users, SetHash(users, id, hash)) && UniqueIndexes(SetHash(users, id, hash))
    ensures Evolves(users, UpdateProfile(users, id, username, email))
            && UniqueIndexes(UpdateProfile(users, id, username, email))
    ensures id !in users ==> Evolves(users, Insert(users, id, row)) && UniqueIndexes(Insert(users, id, row))
  {
    SameKeysUnique(users, SoftDelete(users, id));
    SameKeysUnique(users, AssignRoles(users, id, roles));
    SameKeysUnique(users, SetHash(users, id, hash));
    if Live(users, id) && !Clashes(users, id, Profile(users[id], username, email)) {
      NoClashUnique(users, id, Profile(users[id], username, email));
    }
    if !Clashes(users, id, row) {
      NoClashUnique(users, id, row);
    }
  }

  lemma SameKeysUnique(before: Users, after: Users)
    requires UniqueIndexes(before)
    requires forall u :: Live(after, u) ==> Live(before, u) && after[u].tenant == before[u].tenant
                                            && after[u].username == before[u].username
                                            && after[u].email == before[u].email
    ensures UniqueIndexes(after)
  {
    forall a, b, t, n | Named(after, a, t, n) && Named(after, b, t, n) ensures a == b {
      assert Named(before, a, t, n) && Named(before, b, t, n);
    }
    forall a, b, m | Mailed(after, a, m) && Mailed(after, b, m) ensures a == b {
      assert Mailed(before, a, m) && Mailed(before, b, m);
    }
  }

  lemma NoClashUnique(users: Users, id: Uuid, row: Account)
    requires UniqueIndexes(users) && !Clashes(users, id, row)
    ensures UniqueIndexes(users[id := row])
  {
    var after := users[id := row];
    forall a, b, t, n | Named(after, a, t, n) && Named(after, b, t, n) ensures a == b {
      assert a != id ==> Named(users, a, t, n);
      assert b != id ==> Named(users, b, t, n);
    }
    forall a, b, m | Mailed(after, a, m) && Mailed(after, b, m) ensures a == b {
      assert a != id ==> Mailed(users, a, m);
      assert b != id ==> Mailed(users, b, m);
    }
  }

  /** The indexes in plain words: two different live rows share neither a name in one tenant nor a mail address. */
  lemma UniqueIndexesMean(users: Users)
    ensures UniqueIndexes(users) <==>
              forall a, b :: a in users && b in users && a != b && !users[a].deleted && !users[b].deleted ==>
                && !(users[a].tenant == users[b].tenant && users[a].username == users[b].username)
                && !(users[a].email.Some? && users[a].email == users[b].email)
  {
    if UniqueIndexes(users) {
      forall a, b | a in users && b in users && a != b && !users[a].deleted && !users[b].deleted
        ensures !(users[a].tenant == users[b].tenant && users[a].username == users[b].username)
        ensures !(users[a].email.Some? && users[a].email == users[b].email)
      {
        assert Named(users, a, users[a].tenant, users[a].username);
        assert users[a].email.Some? ==> Mailed(users, a, users[a].email.value);
        assert Named(users, b, users[a].tenant, users[a].username) ==> a == b;
        assert users[a].email.Some? && Mailed(users, b, users[a].email.value) ==> a == b;
      }
    }
  }

  /** A live row is refused exactly when writing it would break a unique index. */
  lemma ClashExact(users: Users, id: Uuid, row: Account)
    requires UniqueIndexes(users) && !row.deleted
    ensures Clashes(users, id, row) <==> !UniqueIndexes(users[id := row])
  {
    var after := users[id := row];
    if Clashes(users, id, row) {
      var other :| other != id &&
        (Named(users, other, row.tenant, row.username) || (row.email.Some? && Mailed(users, other, row.email.value)));
      assert Named(after, id, row.tenant, row.username);
      assert row.email.Some? ==> Mailed(after, id, row.email.value);
      assert Named(users, other, row.tenant, row.username) ==> Named(after, other, row.tenant, row.username);
      assert row.email.Some? && Mailed(users, other, row.email.value) ==> Mailed(after, other, row.email.value);
    } else {
      NoClashUnique(users, id, row);
    }
  }
}
