/**
 * Who may do what over HTTP, told by the requests themselves
 * (internal/api/handler_users.go, internal/auth/session.go:74-110, 173-196).
 */
module Requests {
  import opened Database
  import opened Handlers
  import opened Wrappers

  /** At this time the token opens the account me. */
  ghost predicate SessionOpens(db: Db, token: string, now: int, me: int) {
    && token in db.sessions && db.sessions[token].userId == me && now < db.sessions[token].expiresAt
    && me in db.users && db.users[me].active
  }

  /** Without a session that opens an account, nothing happens. */
  lemma TurnedAway(db: Db, token: string, req: Request, now: int)
    requires forall me :: !SessionOpens(db, token, now, me)
    ensures Serve(db, token, req, now) == (db, 401)
  {
    if token in db.sessions { assert !SessionOpens(db, token, now, db.sessions[token].userId); }
  }

  /** Managing accounts is for admins; one's own password is everybody's. */
  lemma ViewerKeptOut(db: Db, token: string, req: Request, now: int, me: int)
    requires SessionOpens(db, token, now, me) && db.users[me].role != "admin"
    ensures req.ListUsers? || req.PostUser? || req.PutUser? || req.RemoveUser? ==>
      Serve(db, token, req, now) == (db, 403)
    ensures req.ChangePassword? ==> Serve(db, token, req, now).1 != 403
  {
    hide Apply;
  }

  /** The status that reports the answer of the store. */
  predicate Reports(reply: Reply, success: nat, status: nat) {
    match reply
    case Failed(NotFound) => status == 404
    case Failed(UsernameTaken) => status == 409
    case Failed(LastAdmin) => status == 409
    case Failed(BadUsername) => status == 400
    case Failed(BadPassword) => status == 400
    case Failed(BadRole) => status == 400
    case Failed(Constraint) => status == 500
    case _ => status == success
  }

  /** next and status are what the call does, reported with this status on success. */
  ghost predicate CarriesOut(db: Db, call: Call, success: nat, next: Db, status: nat) {
    next == Apply(db, call).0 && Reports(Apply(db, call).1, success, status)
  }

  /**
   * An admin's request becomes the store call it names, except one that would
   * delete, demote or deactivate the own account. Changing the own account
   * keeps the session in use, changing another one keeps none.
   */
  lemma AdminServed(db: Db, token: string, req: Request, now: int, me: int)
    requires SessionOpens(db, token, now, me) && db.users[me].role == "admin"
    ensures var (next, status) := Serve(db, token, req, now);
      match req
      case ListUsers => next == db && status == 200
      case PostUser(name, password, role, salt) =>
        CarriesOut(db, CreateUser(name, password, role, salt, now), 201, next, status)
      case PutUser(id, upd, salt) =>
        if id == me && ((upd.role.Some? && upd.role != Some("admin")) || upd.active == Some(false))
        then next == db && status == 400
        else CarriesOut(db, UpdateUser(id, upd, if id == me then token else "", salt), 200, next, status)
      case RemoveUser(id) =>
        if id == me then next == db && status == 400 else CarriesOut(db, DeleteUser(id), 204, next, status)
      case ChangePassword(_, _, _) => true
  {
    hide Apply;
  }

  /** Anybody signed in changes the own password by giving the present one, and keeps the session in use. */
  lemma OwnPasswordServed(db: Db, token: string, now: int, me: int, current: string, replacement: string, salt: int)
    requires SessionOpens(db, token, now, me)
    ensures var (next, status) := Serve(db, token, ChangePassword(current, replacement, salt), now);
      if db.users[me].hash.password != (if |current| <= 72 then current else current[..72]) then
        next == db && status == 401
      else if 8 <= |replacement| <= 72 then
        && status == 204
        && next == Apply(db, UpdateUser(me, Update(None, None, Some(replacement)), token, salt)).0
        && me in next.users && next.users[me] == db.users[me].(hash := PwHash(replacement, salt))
      else next == db && status == 400
  {}

  // ---------- whatever a viewer asks for ----------

  /** Nothing but the own password hash and own sessions differs. */
  ghost predicate Confined(before: Db, after: Db, me: int) {
    && after.users.Keys == before.users.Keys && after.lastId == before.lastId
    && (forall id :: id in after.users ==>
          if id == me then before.users[id].(hash := after.users[id].hash) == after.users[id]
          else before.users[id] == after.users[id])
    && (forall h :: h in after.sessions ==> h in before.sessions && after.sessions[h] == before.sessions[h])
    && (forall h :: h in before.sessions && before.sessions[h].userId != me ==> h in after.sessions)
  }

  lemma ViewerStep(before: Db, db: Db, token: string, me: int, req: Request, now: int)
    requires Confined(before, db, me) && me in before.users && before.users[me].role != "admin"
    requires token in before.sessions && before.sessions[token].userId == me
    ensures Confined(before, Serve(db, token, req, now).0, me)
  {
    hide OtherAdmins, NamedIds;
  }

  /**
   * No sequence of requests of an account that is no admin changes any row
   * other than the password hash of its own, costs another account a session,
   * or opens one.
   */
  lemma {:induction false} ViewerConfined(db: Db, token: string, me: int, actions: seq<Action>)
    requires me in db.users && db.users[me].role != "admin"
    requires token in db.sessions && db.sessions[token].userId == me
    requires forall a :: a in actions ==> a.Http?
    ensures Confined(db, ActAll(db, token, actions), me)
  {
    hide Serve, Confined;
    if actions == [] {
      NothingDiffers(db, me);
    } else {
      var front, last := actions[..|actions| - 1], actions[|actions| - 1];
      assert last in actions;
      ViewerConfined(db, token, me, front);
      ViewerStep(db, ActAll(db, token, front), token, me, last.req, last.now);
    }
  }

  lemma NothingDiffers(db: Db, me: int)
    ensures Confined(db, db, me)
  {}
}
