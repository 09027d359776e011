/** The account store itself (internal/users/store.go): methods that run SQL statements one after another. */
module Store {
  import opened Wrappers
  import opened Database

  /** The writes of an accepted update, in their order, and its answer. */
  lemma UpdateWrites(db: Db, id: int, upd: Update, keep: string, salt: int)
    requires id in db.users && Rejection(UpdateUser(id, upd, keep, salt)).None?
    requires !(LosesAdmin(db.users[id], Patch(db.users[id], upd)) && OtherAdmins(db, id) == {})
    ensures var next := Patch(db.users[id], upd);
      var w := SetRoleActive(db, id, next.role, next.active);
      var w' := if upd.password.Some? then SetHash(w, id, PwHash(upd.password.value, salt)) else w;
      Apply(db, UpdateUser(id, upd, keep, salt))
        == (if Revokes(upd, next) then DropSessionsExcept(w', id, keep) else w', Found(ToUser(id, next)))
  {
    hide ValidRole, GoodPassword, OtherAdmins;
    var next := Patch(db.users[id], upd);
    var w := SetRoleActive(db, id, next.role, next.active);
    var w' := if upd.password.Some? then SetHash(w, id, PwHash(upd.password.value, salt)) else w;
    assert w'.users == db.users[id := Updated(db.users[id], upd, salt)];
    var (goal, reply) := Apply(db, UpdateUser(id, upd, keep, salt));
    assert goal.users == w'.users && reply == Found(ToUser(id, next));
    assert goal.sessions == (if Revokes(upd, next) then DropSessionsExcept(w', id, keep) else w').sessions;
  }

  class UserStore {
    var db: Db

    constructor (db: Db)
      ensures this.db == db
    {
      this.db := db;
    }

    /** tx is the open transaction: every early return is the deferred rollback, which drops it. */
    method Create(username: string, password: string, role: string, salt: int, now: int) returns (r: Reply)
      modifies this
      ensures (db, r) == Apply(old(db), CreateUser(username, password, role, salt, now))
    {
      if !GoodUsername(username) { return Failed(BadUsername); }
      if !ValidRole(role) { return Failed(BadRole); }
      if !GoodPassword(password) { return Failed(BadPassword); }
      var hash := PwHash(password, salt);
      var tx := db;
      var taken := |NamedIds(tx, username)|;
      if taken > 0 { return Failed(UsernameTaken); }
      tx := InsertUser(tx, UserRow(username, hash, role, true, now));
      var id := tx.lastId;
      db := tx;
      return Found(User(id, username, role, true, now));
    }

    method Update(id: int, upd: Update, keepSession: string, salt: int) returns (r: Reply)
      modifies this
      ensures (db, r) == Apply(old(db), UpdateUser(id, upd, keepSession, salt))
    {
      hide ValidRole, GoodPassword, OtherAdmins;
      if upd.role.Some? && !ValidRole(upd.role.value) { return Failed(BadRole); }
      if upd.password.Some? && !GoodPassword(upd.password.value) { return Failed(BadPassword); }
      var tx := db;
      if id !in tx.users { return Failed(NotFound); }
      var cur := tx.users[id];
      var next := cur;
      if upd.role.Some? { next := next.(role := upd.role.value); }
      if upd.active.Some? { next := next.(active := upd.active.value); }
      if cur.role == ADMIN && cur.active && (next.role != ADMIN || !next.active) {
        var n := |OtherAdmins(tx, id)|;
        if n == 0 { return Failed(LastAdmin); }
      }
      UpdateWrites(db, id, upd, keepSession, salt);
      hide Apply, SetRoleActive, SetHash, DropSessionsExcept;
      tx := SetRoleActive(tx, id, next.role, next.active);
      if upd.password.Some? {
        tx := SetHash(tx, id, PwHash(upd.password.value, salt));
      }
      if upd.password.Some? || !next.active {
        tx := DropSessionsExcept(tx, id, keepSession);
      }
      db := tx;
      return Found(ToUser(id, next));
    }

    method Delete(id: int) returns (r: Reply)
      modifies this
      ensures (db, r) == Apply(old(db), DeleteUser(id))
    {
      var tx := db;
      if id !in tx.users { return Failed(NotFound); }
      var cur := tx.users[id];
      if cur.role == ADMIN && cur.active {
        var n := |OtherAdmins(tx, id)|;
        if n == 0 { return Failed(LastAdmin); }
      }
      tx := DropUser(tx, id);
      db := tx;
      return Done;
    }

    /** Succeeds exactly for an active account of that name, in any letter case, whose password matches. */
    method Authenticate(username: string, password: string) returns (u: Option<User>)
      requires Valid(db)
      ensures u == match Apply(db, Database.Authenticate(username, password)).1 case Found(v) => Some(v) case _ => None
      ensures u.Some? ==> u.value.id in db.users && u.value == ToUser(u.value.id, db.users[u.value.id])
      ensures forall id :: id in db.users && Fold(db.users[id].username) == Fold(username) ==>
        (u == if db.users[id].active && Matches(db.users[id].hash, password)
              then Some(ToUser(id, db.users[id])) else None)
      ensures u.Some? ==> Fold(u.value.username) == Fold(username)
    {
      if id :| id in db.users && Fold(db.users[id].username) == Fold(username) {
        var row := db.users[id];
        if !row.active { return None; }
        if !Matches(row.hash, password) { return None; }
        return Some(ToUser(id, row));
      }
      return None;
    }

    method VerifyPassword(id: int, password: string) returns (ok: bool)
      ensures ok <==> id in db.users && Matches(db.users[id].hash, password)
      ensures Apply(db, Database.VerifyPassword(id, password)) == (db, if ok then Done else NoUser)
    {
      if id !in db.users { return false; }
      ok := Matches(db.users[id].hash, password);
    }

    method NewSession(tokenHash: string, userId: int, expiresAt: int) returns (r: Reply)
      modifies this
      ensures (db, r) == Apply(old(db), CreateSession(tokenHash, userId, expiresAt))
    {
      if tokenHash in db.sessions || userId !in db.users { return Failed(Constraint); }
      db := db.(sessions := db.sessions[tokenHash := SessionRow(userId, expiresAt)]);
      return Done;
    }

    method SessionUser(tokenHash: string, now: int) returns (u: Option<User>)
      ensures u == match Apply(db, Resolve(tokenHash, now)).1 case Found(v) => Some(v) case _ => None
    {
      if tokenHash !in db.sessions { return None; }
      var s := db.sessions[tokenHash];
      if s.userId !in db.users { return None; }
      var row := db.users[s.userId];
      if s.expiresAt > now && row.active { return Some(ToUser(s.userId, row)); }
      return None;
    }

    method RemoveSession(tokenHash: string)
      modifies this
      ensures db == Apply(old(db), DeleteSession(tokenHash)).0
    {
      db := db.(sessions := db.sessions - {tokenHash});
    }

    method PurgeExpiredSessions(now: int)
      modifies this
      ensures db == Apply(old(db), Purge(now)).0
    {
      db := db.(sessions := map h | h in db.sessions && db.sessions[h].expiresAt > now :: db.sessions[h]);
    }
  }
}
