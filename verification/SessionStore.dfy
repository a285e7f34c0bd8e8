/** The objects behind web sessions: the users table, the middleware with its cache, and the handlers
    that change a user and then invalidate the cache. Each method performs the steps that the module
    Sessions interleaves. */
module SessionStore {
  import opened Collections
  import opened Sessions

  datatype CacheEntry = CacheEntry(reading: Reading, checkedAt: Instant)

  class UserTable {
    var rows: Users
    var nextId: nat

    ghost predicate Valid()
      reads this
    {
      && (forall u :: u in rows ==> rows[u].id < nextId)
      && (forall u, u' :: u in rows && u' in rows && rows[u].id == rows[u'].id ==> u == u')
    }

    constructor ()
      ensures Valid() && rows == map[]
    {
      rows, nextId := map[], 1;
    }

    method CreateUser(user: string, hash: string, role: string) returns (ok: bool)
      requires Valid()
      modifies this
      ensures Valid() && (ok <==> user !in old(rows))
      ensures rows == if ok then Created(old(rows), user, old(nextId), hash, role) else old(rows)
      ensures ok ==> rows == old(rows)[user := Row(old(nextId), hash, if role == "" then "admin" else role, 0)]
    {
      if user in rows {
        return false;  // the name is unique
      }
      rows := rows[user := Row(nextId, hash, if role == "" then "admin" else role, 0)];
      nextId := nextId + 1;
      ok := true;
    }

    method GetUserByID(id: nat) returns (user: Option<string>)
      ensures user.Some? ==> user.value in rows && rows[user.value].id == id
      ensures user.None? ==> forall u :: u in rows ==> rows[u].id != id
    {
      if u :| u in rows && rows[u].id == id {
        return Some(u);
      }
      user := None;
    }

    method UpdatePasswordHash(user: string, hash: string)
      requires Valid()
      modifies this`rows
      ensures Valid() && rows == PasswordChanged(old(rows), user, hash)
      ensures user in old(rows) ==>
                var row := old(rows)[user];
                rows == old(rows)[user := Row(row.id, hash, row.role, row.version + 1)]
    {
      if user in rows {
        rows := rows[user := rows[user].(hash := hash, version := rows[user].version + 1)];
      }
    }

    method UpdateUserRole(id: nat, role: string)
      requires Valid()
      modifies this`rows
      ensures Valid() && rows == RoleChanged(old(rows), id, role)
      ensures forall u :: u in old(rows) && old(rows)[u].id == id ==>
                var row := old(rows)[u];
                rows == old(rows)[u := Row(id, row.hash, role, row.version + 1)]
    {
      var user := GetUserByID(id);
      if user.Some? {
        var row := rows[user.value];
        rows := rows[user.value := row.(role := role, version := row.version + 1)];
      }
    }

    method DeleteUser(id: nat) returns (deleted: bool)
      requires Valid()
      modifies this`rows
      ensures Valid() && rows == Deleted(old(rows), id)
      ensures forall u :: u in old(rows) && old(rows)[u].id == id ==> rows == old(rows) - {u}
      ensures deleted <==> exists u :: u in old(rows) && old(rows)[u].id == id
    {
      var user := GetUserByID(id);
      if user.None? {
        return false;
      }
      rows := rows - {user.value};
      deleted := true;
    }
  }

  class WebAuth {
    var cache: map<string, CacheEntry>

    constructor ()
      ensures cache == map[]
    {
      cache := map[];
    }

    /** An undisturbed check of one user: the cache answers while its entry is fresh; otherwise the
        table does, and the answer is stored even when the query failed. */
    method UserState(db: UserTable, user: string, loadedAt: Instant, storedAt: Instant, queryOk: bool) returns (r: Reading)
      modifies this
      ensures if user in old(cache) && loadedAt - old(cache)[user].checkedAt < 30_000_000_000 then
                r == old(cache)[user].reading && cache == old(cache)
              else
                && r == (if queryOk && user in db.rows then Reading(true, db.rows[user].version) else Reading(false, 0))
                && cache == old(cache)[user := CacheEntry(r, storedAt)]
    {
      if user in cache {
        var entry := cache[user];
        if loadedAt - entry.checkedAt < CACHE_TTL {
          return entry.reading;
        }
      }
      var found, version := false, 0;
      if queryOk && user in db.rows {
        found := true;
        version := db.rows[user].version;
      }
      r := Reading(found, version);
      cache := cache[user := CacheEntry(r, storedAt)];
    }

    method InvalidateUser(user: string)
      modifies this
      ensures cache == old(cache) - {user}
    {
      cache := cache - {user};
    }
  }

  /** The version check of the middleware; a token without a role counts as a viewer's. */
  method Authorize(auth: WebAuth, db: UserTable, claims: Credentials, loadedAt: Instant, storedAt: Instant, queryOk: bool)
    returns (role: Option<string>)
    modifies auth
    ensures var cached := claims.user in old(auth.cache) && loadedAt - old(auth.cache)[claims.user].checkedAt < 30_000_000_000;
            var r := if cached then old(auth.cache)[claims.user].reading
                     else if queryOk && claims.user in db.rows then Reading(true, db.rows[claims.user].version)
                     else Reading(false, 0);
            && role == (if r.found && r.version == claims.version
                        then Some(if claims.role == "" then "viewer" else claims.role) else None)
            && auth.cache == if cached then old(auth.cache) else old(auth.cache)[claims.user := CacheEntry(r, storedAt)]
  {
    var r := auth.UserState(db, claims.user, loadedAt, storedAt, queryOk);
    if !r.found || r.version != claims.version {
      return None;
    }
    role := Some(if claims.role == "" then "viewer" else claims.role);
  }

  datatype Outcome = Done | BadRequest | NotFound | ServerError

  /** How the database and the library behave during one handler: whether reading and writing succeed. */
  datatype Conditions = Conditions(readOk: bool, listOk: bool, hashOk: bool, writeOk: bool)

  /** Reset of a password: the change is followed by the invalidation, and nothing happens on refusal or
      failure. `decoded` tells whether the request could be read. */
  method ResetPassword(db: UserTable, auth: WebAuth, id: int, decoded: bool, password: string, hash: string, w: Conditions)
    returns (outcome: Outcome, ghost user: string)
    requires db.Valid()
    modifies db`rows, auth
    ensures db.Valid()
    ensures outcome.Done? <==> id > 0 && decoded && |password| >= 6 && w.readOk && w.hashOk && w.writeOk
                               && exists u :: u in old(db.rows) && old(db.rows)[u].id == id
    ensures outcome.BadRequest? <==> id <= 0 || !decoded || |password| < 6
    ensures outcome.Done? ==>
              && user in old(db.rows) && old(db.rows)[user].id == id
              && (var row := old(db.rows)[user]; db.rows == old(db.rows)[user := Row(row.id, hash, row.role, row.version + 1)])
              && auth.cache == old(auth.cache) - {user}
    ensures !outcome.Done? ==> db.rows == old(db.rows) && auth.cache == old(auth.cache)
  {
    user := "";
    if id <= 0 || !decoded || |password| < 6 {
      return BadRequest, user;
    }
    if !w.readOk {
      return ServerError, user;
    }
    var found := db.GetUserByID(id);
    if found.None? {
      return NotFound, user;
    }
    user := found.value;
    if !w.hashOk || !w.writeOk {
      return ServerError, user;
    }
    db.UpdatePasswordHash(found.value, hash);
    auth.InvalidateUser(found.value);
    outcome := Done;
  }

  /** Change of a role; nobody may change their own. */
  method UpdateRole(db: UserTable, auth: WebAuth, id: int, decoded: bool, role: string, me: string, w: Conditions)
    returns (outcome: Outcome, ghost user: string)
    requires db.Valid()
    modifies db`rows, auth
    ensures db.Valid()
    ensures outcome.Done? <==> id > 0 && decoded && (role == "admin" || role == "viewer") && w.readOk && w.writeOk
                               && exists u :: u in old(db.rows) && old(db.rows)[u].id == id
                                              && (u == me ==> role == old(db.rows)[u].role)
    ensures outcome.Done? ==>
              && user in old(db.rows) && old(db.rows)[user].id == id
              && (var row := old(db.rows)[user]; db.rows == old(db.rows)[user := Row(row.id, row.hash, role, row.version + 1)])
              && auth.cache == old(auth.cache) - {user}
    ensures !outcome.Done? ==> db.rows == old(db.rows) && auth.cache == old(auth.cache)
  {
    user := "";
    if id <= 0 || !decoded || (role != "admin" && role != "viewer") {
      return BadRequest, user;
    }
    if !w.readOk {
      return ServerError, user;
    }
    var found := db.GetUserByID(id);
    if found.None? {
      return NotFound, user;
    }
    if found.value == me && role != db.rows[found.value].role {
      return BadRequest, user;
    }
    user := found.value;
    if !w.writeOk {
      return ServerError, user;
    }
    db.UpdateUserRole(id, role);
    auth.InvalidateUser(found.value);
    outcome := Done;
  }

  /** The checks before a deletion: neither oneself nor the last user. */
  ghost predicate MayDelete(rows: Users, id: int, me: string, w: Conditions) {
    && id > 0 && w.readOk && w.listOk && |rows| > 1
    && exists u :: u in rows && rows[u].id == id && u != me
  }

  ghost predicate NoRow(rows: Users, id: int) {
    forall u :: u in rows ==> rows[u].id != id
  }

  /** Deletion of a user. `raced` means that another deletion of the same row gets in between the checks and
      the statement; this one then finds nothing to delete. */
  method DeleteUser(db: UserTable, auth: WebAuth, id: int, me: string, w: Conditions, raced: bool)
    returns (outcome: Outcome, ghost user: string)
    requires db.Valid()
    modifies db`rows, auth
    ensures db.Valid()
    ensures outcome.Done? <==> id > 0 && w.readOk && w.listOk && w.writeOk && !raced && |old(db.rows)| > 1
                               && exists u :: u in old(db.rows) && old(db.rows)[u].id == id && u != me
    ensures outcome.NotFound? <==>
              id > 0 && w.readOk && (NoRow(old(db.rows), id) || (MayDelete(old(db.rows), id, me, w) && w.writeOk && raced))
    ensures outcome.Done? ==> user in old(db.rows) && old(db.rows)[user].id == id && db.rows == old(db.rows) - {user}
    ensures db.rows == if MayDelete(old(db.rows), id, me, w) && (raced || w.writeOk) then Deleted(old(db.rows), id) else old(db.rows)
    ensures auth.cache == if outcome.Done? then old(auth.cache) - {user} else old(auth.cache)
  {
    user := "";
    if id <= 0 {
      return BadRequest, user;
    }
    if !w.readOk {
      return ServerError, user;
    }
    var found := db.GetUserByID(id);
    if found.None? {
      return NotFound, user;
    }
    if found.value == me {
      return BadRequest, user;
    }
    if !w.listOk {
      return ServerError, user;
    }
    if |db.rows| <= 1 {
      return BadRequest, user;
    }
    user := found.value;
    if raced {
      var _ := db.DeleteUser(id);
    }
    if !w.writeOk {
      return ServerError, user;
    }
    outcome := FinishDelete(db, auth, id, found.value);
    assert Deleted(Deleted(old(db.rows), id), id) == Deleted(old(db.rows), id);
  }

  /** The statement and what follows it, on whatever the table has become. */
  method FinishDelete(db: UserTable, auth: WebAuth, id: nat, user: string) returns (outcome: Outcome)
    requires db.Valid()
    modifies db`rows, auth
    ensures db.Valid() && db.rows == Deleted(old(db.rows), id)
    ensures outcome == if exists u :: u in old(db.rows) && old(db.rows)[u].id == id then Done else NotFound
    ensures auth.cache == if outcome.Done? then old(auth.cache) - {user} else old(auth.cache)
  {
    var deleted := db.DeleteUser(id);
    if !deleted {
      return NotFound;
    }
    auth.InvalidateUser(user);
    outcome := Done;
  }
}
