/**
 * The user-management and own-password requests behind the session middleware
 * (internal/api/handler_users.go, internal/auth/session.go).
 */
module Handlers {
  import Accounts
  import opened Wrappers
  import opened Database
  import opened Store

  datatype Request =
    | ListUsers
    | PostUser(username: string, password: string, role: string, salt: int)
    | PutUser(id: int, upd: Update, salt: int)
    | RemoveUser(id: int)
    | ChangePassword(current: string, replacement: string, salt: int)

  predicate AdminOnly(req: Request) { !req.ChangePassword? }

  /** writeStoreErr. */
  function StatusOf(error: Error): nat {
    match error
    case NotFound => 404
    case UsernameTaken => 409
    case LastAdmin => 409
    case BadUsername => 400
    case BadPassword => 400
    case BadRole => 400
    case Constraint => 500
  }

  function StatusFor(reply: Reply, success: nat): nat {
    if reply.Failed? then StatusOf(reply.error) else success
  }

  /** What an admin may not do to the own account. */
  predicate LocksSelfOut(upd: Update) {
    (upd.role.Some? && upd.role.value != ADMIN) || (upd.active.Some? && !upd.active.value)
  }

  /** The effect and status of a request that arrives with the given session token hash. */
  ghost function Serve(db: Db, token: string, req: Request, now: int): (Db, nat) {
    if !Resolves(db, token, now) then (db, 401)
    else
      var me := db.sessions[token].userId;
      if AdminOnly(req) && db.users[me].role != ADMIN then (db, 403)
      else match req
        case ListUsers => (db, 200)
        case PostUser(username, password, role, salt) =>
          var (db', reply) := Apply(db, CreateUser(username, password, role, salt, now));
          (db', StatusFor(reply, 201))
        case PutUser(id, upd, salt) =>
          if id == me && LocksSelfOut(upd) then (db, 400)
          else
            var (db', reply) := Apply(db, UpdateUser(id, upd, if id == me then token else "", salt));
            (db', StatusFor(reply, 200))
        case RemoveUser(id) =>
          if id == me then (db, 400)
          else
            var (db', reply) := Apply(db, DeleteUser(id));
            (db', StatusFor(reply, 204))
        case ChangePassword(current, replacement, salt) =>
          if !Matches(db.users[me].hash, current) then (db, 401)
          else
            var (db', reply) := Apply(db, UpdateUser(me, Update(None, None, Some(replacement)), token, salt));
            (db', if !reply.Failed? then 204 else if reply.error == BadPassword then 400 else 500)
  }

  class Api {
    const store: UserStore

    constructor (store: UserStore)
      ensures this.store == store
    {
      this.store := store;
    }

    /** The middleware, RequireAdmin and the routed handler, one after another. */
    method Handle(token: string, req: Request, now: int) returns (status: nat)
      modifies store
      ensures (store.db, status) == Serve(old(store.db), token, req, now)
    {
      var me := store.SessionUser(token, now);
      if me.None? { return 401; }
      if AdminOnly(req) && me.value.role != ADMIN { return 403; }
      match req {
        case ListUsers => return 200;
        case PostUser(username, password, role, salt) =>
          var r := store.Create(username, password, role, salt, now);
          return if r.Failed? then StatusOf(r.error) else 201;
        case PutUser(id, upd, salt) =>
          status := Put(me.value, token, id, upd, salt);
        case RemoveUser(id) =>
          status := Remove(me.value, id);
        case ChangePassword(current, replacement, salt) =>
          status := SetOwnPassword(me.value, token, current, replacement, salt);
      }
    }

    method Put(me: User, token: string, id: int, upd: Update, salt: int) returns (status: nat)
      modifies store
      ensures id == me.id && LocksSelfOut(upd) ==> store.db == old(store.db) && status == 400
      ensures !(id == me.id && LocksSelfOut(upd)) ==>
        var (db, reply) := Apply(old(store.db), UpdateUser(id, upd, if id == me.id then token else "", salt));
        store.db == db && status == StatusFor(reply, 200)
    {
      var keep := "";
      if id == me.id {
        if (upd.role.Some? && upd.role.value != ADMIN) || (upd.active.Some? && !upd.active.value) {
          return 400;
        }
        keep := token;
      }
      var r := store.Update(id, upd, keep, salt);
      return if r.Failed? then StatusOf(r.error) else 200;
    }

    method Remove(me: User, id: int) returns (status: nat)
      modifies store
      ensures id == me.id ==> store.db == old(store.db) && status == 400
      ensures id != me.id ==>
        var (db, reply) := Apply(old(store.db), DeleteUser(id)); store.db == db && status == StatusFor(reply, 204)
    {
      if id == me.id { return 400; }
      var r := store.Delete(id);
      return if r.Failed? then StatusOf(r.error) else 204;
    }

    method SetOwnPassword(me: User, token: string, current: string, replacement: string, salt: int)
      returns (status: nat)
      modifies store
      ensures !(me.id in old(store.db.users) && Matches(old(store.db.users)[me.id].hash, current)) ==>
        store.db == old(store.db) && status == 401
      ensures me.id in old(store.db.users) && Matches(old(store.db.users)[me.id].hash, current) ==>
        var (db, reply) := Apply(old(store.db), UpdateUser(me.id, Update(None, None, Some(replacement)), token, salt));
        store.db == db
        && status == if !reply.Failed? then 204 else if reply.error == BadPassword then 400 else 500
    {
      var ok := store.VerifyPassword(me.id, current);
      if !ok { return 401; }
      var r := store.Update(me.id, Update(None, None, Some(replacement)), token, salt);
      if r.Failed? {
        if r.error == BadPassword { return 400; }
        return 500;
      }
      return 204;
    }
  }

  // ---------- an admin acting alone ----------

  /** One thing that happens while a single admin uses the dashboard: a request of theirs, or the hourly purge. */
  datatype Action = Http(req: Request, now: int) | HourlyPurge(now: int)

  ghost function Act(db: Db, token: string, a: Action): Db {
    match a
    case Http(req, now) => Serve(db, token, req, now).0
    case HourlyPurge(now) => Apply(db, Purge(now)).0
  }

  ghost function ActAll(db: Db, token: string, actions: seq<Action>): Db {
    if actions == [] then db else Act(ActAll(db, token, actions[..|actions| - 1]), token, actions[|actions| - 1])
  }

  /** The token opens the account me, an active admin, until the given time. */
  ghost predicate AdminUntil(db: Db, token: string, me: int, expiry: int) {
    && token in db.sessions && db.sessions[token] == SessionRow(me, expiry)
    && me in db.users && IsActiveAdmin(db.users[me])
  }

  lemma ActKeepsAccess(db: Db, token: string, me: int, expiry: int, a: Action)
    requires Valid(db) && AdminUntil(db, token, me, expiry) && a.now < expiry
    ensures AdminUntil(Act(db, token, a), token, me, expiry) && Valid(Act(db, token, a))
    ensures a.Http? && AdminOnly(a.req) ==> Serve(db, token, a.req, a.now).1 !in {401, 403}
  {
    hide Apply, Valid;
    forall call | Harmless(call, token, me, expiry)
      ensures AdminUntil(Apply(db, call).0, token, me, expiry) && Valid(Apply(db, call).0)
    {
      HarmlessKeepsAccess(db, token, me, expiry, call);
      Accounts.ApplyKeepsValid(db, call);
    }
    if a.HourlyPurge? { assert Harmless(Purge(a.now), token, me, expiry); }
    if a.Http? && a.req.ListUsers? { assert Act(db, token, a) == db; }
  }

  /** The calls that requests of the account me turn into, and purges before its session expires. */
  predicate Harmless(call: Call, token: string, me: int, expiry: int) {
    match call
    case CreateUser(_, _, _, _, _) => true
    case UpdateUser(id, upd, keep, _) => id == me ==> keep == token && !LocksSelfOut(upd)
    case DeleteUser(id) => id != me
    case Purge(now) => now < expiry
    case _ => false
  }

  lemma HarmlessKeepsAccess(db: Db, token: string, me: int, expiry: int, call: Call)
    requires Valid(db) && AdminUntil(db, token, me, expiry) && Harmless(call, token, me, expiry)
    ensures AdminUntil(Apply(db, call).0, token, me, expiry)
  {
    assert me <= db.lastId;
  }

  /**
   * Whatever an admin asks for, no sequence of their own requests costs them
   * the session they ask with: until it expires it opens an active admin, and
   * no management request is refused for lack of a session or of the role.
   */
  lemma {:induction false} AdminKeepsAccess(db: Db, token: string, me: int, expiry: int, actions: seq<Action>)
    requires Valid(db) && AdminUntil(db, token, me, expiry)
    requires forall a :: a in actions ==> a.now < expiry
    ensures AdminUntil(ActAll(db, token, actions), token, me, expiry) && Valid(ActAll(db, token, actions))
    ensures forall now :: now < expiry ==> Resolves(ActAll(db, token, actions), token, now)
    ensures forall req, now :: now < expiry && AdminOnly(req) ==>
      Serve(ActAll(db, token, actions), token, req, now).1 !in {401, 403}
  {
    if actions != [] {
      var front, last := actions[..|actions| - 1], actions[|actions| - 1];
      AdminKeepsAccess(db, token, me, expiry, front);
      assert last in actions;
      ActKeepsAccess(ActAll(db, token, front), token, me, expiry, last);
    }
    var end := ActAll(db, token, actions);
    forall req, now | now < expiry && AdminOnly(req) ensures Serve(end, token, req, now).1 !in {401, 403} {
      ActKeepsAccess(end, token, me, expiry, Http(req, now));
    }
  }
}
