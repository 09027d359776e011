/**
 * What each call of the account store answers and does, told by the tables it
 * finds (internal/users/store.go), and what follows for later calls.
 */
module Answers {
  import opened Accounts
  import opened Database
  import opened Transactions
  import opened Wrappers

  ghost predicate SomeActiveAdmin(users: map<int, UserRow>) {
    exists id :: id in users && users[id].role == "admin" && users[id].active
  }

  predicate LetterOrDigit(c: char) { 'A' <= c <= 'Z' || 'a' <= c <= 'z' || '0' <= c <= '9' }

  /** What an account may be called. */
  ghost predicate NameAllowed(name: string) {
    3 <= |name| <= 32 && forall c :: c in name ==> LetterOrDigit(c) || c in {'.', '_', '-'}
  }

  /** Only the first 72 bytes of a password count. */
  predicate Opens(row: UserRow, password: string) {
    row.hash.password == if |password| <= 72 then password else password[..72]
  }

  /**
   * A creation is refused for exactly one reason, the first that applies, and
   * otherwise adds an active account with what was asked for under a number
   * never used before.
   */
  ghost predicate Creates(db: Db, name: string, password: string, role: string, salt: int, now: int,
                          next: Db, reply: Reply) {
    if !NameAllowed(name) then next == db && reply == Failed(BadUsername)
    else if role !in {"admin", "viewer"} then next == db && reply == Failed(BadRole)
    else if !(8 <= |password| <= 72) then next == db && reply == Failed(BadPassword)
    else if exists id :: id in db.users && SameName(db.users[id].username, name) then
      next == db && reply == Failed(UsernameTaken)
    else
      var id := db.lastId + 1;
      && reply == Found(User(id, name, role, true, now))
      && next == Db(db.users[id := UserRow(name, PwHash(password, salt), role, true, now)], db.sessions, id)
  }

  /** The update takes away an active admin's role or account. */
  predicate Demotes(row: UserRow, upd: Update) {
    row.role == "admin" && row.active
    && ((upd.role.Some? && upd.role.value != "admin") || upd.active == Some(false))
  }

  /** What is asked for replaces what the row has, and the rest stays. */
  predicate Carries(row: UserRow, upd: Update, salt: int, next: UserRow) {
    && next.username == row.username && next.createdAt == row.createdAt
    && next.role == (if upd.role.Some? then upd.role.value else row.role)
    && next.active == (if upd.active.Some? then upd.active.value else row.active)
    && next.hash == (if upd.password.Some? then PwHash(upd.password.value, salt) else row.hash)
  }

  /**
   * An update is refused for exactly one reason: no such role, no such
   * password, no such account, or no active admin would be left. Otherwise it
   * changes just what it asks for, and a session is lost exactly if it is
   * another one of the account, and the password was changed or the account is
   * inactive.
   */
  ghost predicate Updates(db: Db, id: int, upd: Update, keep: string, salt: int, next: Db, reply: Reply) {
    if upd.role.Some? && upd.role.value !in {"admin", "viewer"} then next == db && reply == Failed(BadRole)
    else if upd.password.Some? && !(8 <= |upd.password.value| <= 72) then next == db && reply == Failed(BadPassword)
    else if id !in db.users then next == db && reply == Failed(NotFound)
    else if Demotes(db.users[id], upd) && !SomeActiveAdmin(db.users - {id}) then
      next == db && reply == Failed(LastAdmin)
    else
      && id in next.users && Carries(db.users[id], upd, salt, next.users[id])
      && next.users == db.users[id := next.users[id]] && next.lastId == db.lastId
      && reply == Found(User(id, db.users[id].username, next.users[id].role, next.users[id].active,
                             db.users[id].createdAt))
      && (forall h :: h in next.sessions <==> (
            && h in db.sessions
            && !(db.sessions[h].userId == id && h != keep && (upd.password.Some? || !next.users[id].active))))
      && (forall h :: h in next.sessions ==> next.sessions[h] == db.sessions[h])
  }

  /**
   * A deletion is refused exactly when it would leave no active admin though
   * there is one; otherwise it removes the row, and the sessions of that account.
   */
  ghost predicate Deletes(db: Db, id: int, next: Db, reply: Reply) {
    if id !in db.users then next == db && reply == Failed(NotFound)
    else if SomeActiveAdmin(db.users) && !SomeActiveAdmin(db.users - {id}) then
      next == db && reply == Failed(LastAdmin)
    else
      && reply == Done && next.users == db.users - {id} && next.lastId == db.lastId
      && next.sessions == map h | h in db.sessions && db.sessions[h].userId != id :: db.sessions[h]
  }

  /** A login is answered with the active account of that name, in any letter case, that the password opens. */
  ghost predicate Authenticates(db: Db, name: string, password: string, reply: Reply) {
    && (forall id | id in db.users && SameName(db.users[id].username, name) ::
          db.users[id].active && Opens(db.users[id], password) ==> reply == Found(ToUser(id, db.users[id])))
    && (reply.Found? ==>
          && reply.user.id in db.users && reply.user == ToUser(reply.user.id, db.users[reply.user.id])
          && SameName(reply.user.username, name) && reply.user.active && Opens(db.users[reply.user.id], password))
    && (!reply.Found? ==> reply == NoUser)
  }

  /** A token opens the account it was issued for, while it has not expired and the account is active. */
  ghost predicate Looks(db: Db, hash: string, now: int, reply: Reply) {
    if hash in db.sessions && now < db.sessions[hash].expiresAt
      && db.sessions[hash].userId in db.users && db.users[db.sessions[hash].userId].active
    then
      var id := db.sessions[hash].userId;
      reply == Found(User(id, db.users[id].username, db.users[id].role, true, db.users[id].createdAt))
    else reply == NoUser
  }

  /** The meaning of every call, without any of the statements it is made of. */
  ghost predicate Obeys(db: Db, call: Call, next: Db, reply: Reply) {
    match call
    case CreateUser(name, password, role, salt, now) => Creates(db, name, password, role, salt, now, next, reply)
    case UpdateUser(id, upd, keep, salt) => Updates(db, id, upd, keep, salt, next, reply)
    case DeleteUser(id) => Deletes(db, id, next, reply)
    case Authenticate(name, password) => next == db && Authenticates(db, name, password, reply)
    case VerifyPassword(id, password) =>
      next == db && reply == if id in db.users && Opens(db.users[id], password) then Done else NoUser
    case CreateSession(hash, id, expiry) =>
      if hash in db.sessions || id !in db.users then next == db && reply == Failed(Constraint)
      else next == db.(sessions := db.sessions[hash := SessionRow(id, expiry)]) && reply == Done
    case Resolve(hash, now) => next == db && Looks(db, hash, now, reply)
    case DeleteSession(hash) =>
      reply == Done && next == db.(sessions := map h | h in db.sessions && h != hash :: db.sessions[h])
    case Purge(now) =>
      && reply == Done && next.users == db.users && next.lastId == db.lastId
      && next.sessions == map h | h in db.sessions && now < db.sessions[h].expiresAt :: db.sessions[h]
  }

  /** In every schedule, every call that answers obeys the meaning of its call at its place in the log. */
  lemma EveryCallObeys(db0: Db, events: seq<Event>, log: seq<Entry>, k: nat)
    requires Valid(db0) && log == Exec(db0, events).log && k < |log|
    ensures Obeys(StateAt(db0, log, k), log[k].call, StateAt(db0, log, k + 1), log[k].reply)
  {
    ExecReplays(db0, events);
    hide Exec, Apply, Valid, Obeys;
    EntryObeys(db0, log, k);
  }

  /** The same for any list of calls with the answers they give one after another. */
  lemma EntryObeys(db0: Db, log: seq<Entry>, k: nat)
    requires Valid(db0) && Truthful(db0, log) && k < |log|
    ensures Obeys(StateAt(db0, log, k), log[k].call, StateAt(db0, log, k + 1), log[k].reply)
  {
    hide Apply, Valid, Obeys;
    ValidAt(db0, log, k);
    StepAt(db0, log, k);
    ApplyObeys(StateAt(db0, log, k), log[k].call);
  }

  lemma ApplyObeys(db: Db, call: Call)
    requires Valid(db)
    ensures Obeys(db, call, Apply(db, call).0, Apply(db, call).1)
  {
    hide Obeys, Apply, Valid;
    match call {
      case CreateUser(_, _, _, _, _) => CreationObeys(db, call);
      case UpdateUser(_, _, _, _) => UpdateObeys(db, call);
      case DeleteUser(_) => DeletionObeys(db, call);
      case Authenticate(name, password) => LoginObeys(db, name, password);
      case _ => OthersObey(db, call);
    }
  }

  lemma OthersObey(db: Db, call: Call)
    requires !(call.CreateUser? || call.UpdateUser? || call.DeleteUser? || call.Authenticate?)
    ensures Obeys(db, call, Apply(db, call).0, Apply(db, call).1)
  {
    hide OtherAdmins, Authenticated, NamedIds;
  }

  lemma UpdateObeys(db: Db, call: Call)
    requires call.UpdateUser?
    ensures Obeys(db, call, Apply(db, call).0, Apply(db, call).1)
  {
    hide OtherAdmins, SomeActiveAdmin, NamedIds;
    var id, upd := call.id, call.upd;
    if id in db.users {
      OnlyAdmin(db, id);
    }
  }

  lemma DeletionObeys(db: Db, call: Call)
    requires call.DeleteUser?
    ensures Obeys(db, call, Apply(db, call).0, Apply(db, call).1)
  {
    hide OtherAdmins, SomeActiveAdmin, NamedIds;
    if call.id in db.users { OnlyAdmin(db, call.id); }
  }

  lemma CreationObeys(db: Db, call: Call)
    requires call.CreateUser?
    ensures Obeys(db, call, Apply(db, call).0, Apply(db, call).1)
  {
    hide NamedIds, SameName, GoodUsername, NameAllowed;
    AllowedIsGood(call.username);
    NameTaken(db, call.username);
  }

  lemma NameTaken(db: Db, name: string)
    ensures NamedIds(db, name) != {} <==> exists id :: id in db.users && SameName(db.users[id].username, name)
  {
    forall id | id in db.users ensures id in NamedIds(db, name) <==> SameName(db.users[id].username, name) {
      FoldSame(db.users[id].username, name);
    }
    if forall id :: id in db.users ==> id !in NamedIds(db, name) { assert NamedIds(db, name) == {}; }
  }

  lemma AllowedIsGood(name: string)
    ensures GoodUsername(name) <==> NameAllowed(name)
  {
    if NameAllowed(name) {
      forall i | 0 <= i < |name| ensures UsernameChar(name[i]) { assert name[i] in name; }
    }
  }

  lemma OnlyAdmin(db: Db, id: int)
    requires id in db.users
    ensures OtherAdmins(db, id) == {} <==> !SomeActiveAdmin(db.users - {id})
    ensures SomeActiveAdmin(db.users) <==> IsActiveAdmin(db.users[id]) || SomeActiveAdmin(db.users - {id})
  {
    if i :| i in OtherAdmins(db, id) { assert i in db.users - {id}; }
    if i :| i in db.users - {id} && db.users[i].role == "admin" && db.users[i].active {
      assert i in OtherAdmins(db, id) && i in db.users;
    }
  }

  lemma LoginObeys(db: Db, name: string, password: string)
    requires Valid(db)
    ensures var (next, reply) := Apply(db, Authenticate(name, password));
      Obeys(db, Authenticate(name, password), next, reply)
  {
    hide Fold, SameName;
    forall id | id in db.users
      ensures Fold(db.users[id].username) == Fold(name) <==> SameName(db.users[id].username, name)
    {
      FoldSame(db.users[id].username, name);
    }
  }

  // ---------- what follows for later calls ----------

  /** The call was carried out and changed or removed the account. */
  predicate Touches(e: Entry, id: int) {
    || (e.call.UpdateUser? && e.call.id == id && e.reply.Found?)
    || (e.call.DeleteUser? && e.call.id == id && e.reply.Done?)
  }

  lemma RowStep(db: Db, e: Entry, id: int)
    requires Valid(db) && e.reply == Apply(db, e.call).1 && id in db.users && !Touches(e, id)
    ensures id in Apply(db, e.call).0.users && Apply(db, e.call).0.users[id] == db.users[id]
  {
    assert id <= db.lastId;
  }

  lemma {:induction false} RowLasts(db0: Db, log: seq<Entry>, k: nat, m: nat, id: int)
    requires Valid(db0) && Truthful(db0, log) && k <= m <= |log| && id in StateAt(db0, log, k).users
    requires forall j :: k <= j < m ==> !Touches(log[j], id)
    ensures id in StateAt(db0, log, m).users && StateAt(db0, log, m).users[id] == StateAt(db0, log, k).users[id]
    decreases m
  {
    hide Apply, Valid;
    if k < m {
      RowLasts(db0, log, k, m - 1, id);
      StepAt(db0, log, m - 1);
      ValidAt(db0, log, m - 1);
      RowStep(StateAt(db0, log, m - 1), log[m - 1], id);
    }
  }

  /**
   * A created account logs in, under its name in any letter case, with
   * exactly the password it was created with, and has the role it was created
   * with, until a call changes it.
   */
  lemma CreatedLogsIn(db0: Db, events: seq<Event>, log: seq<Entry>, k: nat, m: nat)
    requires Valid(db0) && log == Exec(db0, events).log && k < m < |log|
    requires log[k].call.CreateUser? && log[k].reply.Found? && log[m].call.Authenticate?
    requires forall j :: k < j < m ==> !Touches(log[j], log[k].reply.user.id)
    requires SameName(log[m].call.username, log[k].call.username) && |log[m].call.password| <= 72
    ensures log[k].reply.user.role == log[k].call.newRole
    ensures log[m].reply
      == if log[m].call.password == log[k].call.password then Found(log[k].reply.user) else NoUser
  {
    ExecReplays(db0, events);
    hide Exec, Apply, Valid, SameName;
    EntryObeys(db0, log, k);
    RowLasts(db0, log, k + 1, m, log[k].reply.user.id);
    EntryObeys(db0, log, m);
    ValidAt(db0, log, m);
    OneAccount(StateAt(db0, log, m), log[k].reply.user.id, log[m].call.username, log[m].call.password, log[m].reply);
  }

  lemma OneAccount(db: Db, id: int, name: string, password: string, reply: Reply)
    requires Valid(db) && Authenticates(db, name, password, reply)
    requires id in db.users && SameName(name, db.users[id].username) && db.users[id].active
    ensures reply == if Opens(db.users[id], password) then Found(ToUser(id, db.users[id])) else NoUser
  {
    hide SameName, Fold;
    FoldSame(db.users[id].username, name);
    FoldSame(name, db.users[id].username);
    if reply.Found? { FoldSame(reply.user.username, name); }
  }

  /** Logging out ends the session: until the token is issued again, no lookup of it answers with a user. */
  lemma LogoutHolds(db0: Db, events: seq<Event>, log: seq<Entry>, k: nat, m: nat, hash: string)
    requires Valid(db0) && log == Exec(db0, events).log && k < m < |log|
    requires log[k].call == DeleteSession(hash) && log[m].call.Resolve? && log[m].call.hash == hash
    requires forall j :: k < j < m ==> !(log[j].call.CreateSession? && log[j].call.hash == hash)
    ensures log[m].reply == NoUser
  {
    ExecReplays(db0, events);
    hide Exec, Apply, Valid;
    EntryObeys(db0, log, k);
    StaysOut(db0, log, k + 1, m, hash);
    EntryObeys(db0, log, m);
  }

  lemma {:induction false} StaysOut(db0: Db, log: seq<Entry>, k: nat, m: nat, hash: string)
    requires Valid(db0) && Truthful(db0, log) && k <= m <= |log| && hash !in StateAt(db0, log, k).sessions
    requires forall j :: k <= j < m ==> !(log[j].call.CreateSession? && log[j].call.hash == hash)
    ensures hash !in StateAt(db0, log, m).sessions
    decreases m
  {
    hide Apply, Valid, Obeys;
    if k < m {
      StaysOut(db0, log, k, m - 1, hash);
      EntryObeys(db0, log, m - 1);
      NoNewToken(StateAt(db0, log, m - 1), log[m - 1].call, StateAt(db0, log, m), log[m - 1].reply, hash);
    }
  }

  lemma NoNewToken(db: Db, call: Call, next: Db, reply: Reply, hash: string)
    requires Obeys(db, call, next, reply) && hash !in db.sessions
    requires !(call.CreateSession? && call.hash == hash)
    ensures hash !in next.sessions
  {
    hide Authenticates, Looks, NameAllowed, SomeActiveAdmin;
  }
}
