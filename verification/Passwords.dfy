/**
 * What a password change or a deactivation does to sessions and logins, over
 * whole logs and schedules (internal/users/store.go).
 */
module Passwords {
  import opened Accounts
  import opened Database
  import opened Transactions
  import opened Wrappers

  // ---------- sessions ----------

  /** The call changed the password of id or left the account inactive, keeping at most the session keep. */
  predicate Revocation(e: Entry, id: int, keep: string) {
    && e.call.UpdateUser? && e.call.id == id && e.call.keep == keep
    && e.reply.Found? && (e.call.upd.password.Some? || !e.reply.user.active)
  }

  predicate OpensSession(e: Entry, id: int) { e.call.CreateSession? && e.call.userId == id && e.reply.Done? }

  ghost predicate SessionOf(db: Db, h: string, id: int) { h in db.sessions && db.sessions[h].userId == id }

  /** No session of the user is left except possibly the kept one. */
  ghost predicate OnlyKept(db: Db, id: int, keep: string) {
    forall h :: SessionOf(db, h, id) ==> h == keep
  }

  lemma RevocationRevokes(db: Db, e: Entry, id: int, keep: string)
    requires Revocation(e, id, keep) && e.reply == Apply(db, e.call).1
    ensures forall h :: SessionOf(Apply(db, e.call).0, h, id) <==> SessionOf(db, h, id) && h == keep
    ensures forall h :: SessionOf(db, h, id) && h == keep ==> Apply(db, e.call).0.sessions[h] == db.sessions[h]
  {}

  lemma OnlyKeptStep(db: Db, e: Entry, id: int, keep: string)
    requires OnlyKept(db, id, keep) && e.reply == Apply(db, e.call).1 && !OpensSession(e, id)
    ensures OnlyKept(Apply(db, e.call).0, id, keep)
  {
    forall h | SessionOf(Apply(db, e.call).0, h, id) ensures h == keep { assert SessionOf(db, h, id); }
  }

  lemma {:induction false} OnlyKeptLasts(db0: Db, log: seq<Entry>, k: nat, m: nat, id: int, keep: string)
    requires Truthful(db0, log) && k <= m <= |log| && OnlyKept(StateAt(db0, log, k), id, keep)
    requires forall j :: k <= j < m ==> !OpensSession(log[j], id)
    ensures OnlyKept(StateAt(db0, log, m), id, keep)
    decreases m
  {
    hide Apply, OnlyKept;
    if k < m {
      OnlyKeptLasts(db0, log, k, m - 1, id, keep);
      StepAt(db0, log, m - 1);
      OnlyKeptStep(StateAt(db0, log, m - 1), log[m - 1], id, keep);
    }
  }

  lemma LookupNeedsSession(db: Db, call: Call)
    requires call.Resolve? && Apply(db, call).1.Found?
    ensures SessionOf(db, call.hash, Apply(db, call).1.user.id)
  {}

  /**
   * After a revoking update, only the kept token resolves to that user until
   * somebody opens a new session for them.
   */
  lemma RevocationHolds(db0: Db, events: seq<Event>, log: seq<Entry>, k: nat, m: nat, id: int, keep: string)
    requires log == Exec(db0, events).log
    requires k < m < |log| && Revocation(log[k], id, keep)
    requires forall j :: k < j < m ==> !OpensSession(log[j], id)
    requires log[m].call.Resolve? && log[m].reply.Found? && log[m].reply.user.id == id
    ensures log[m].call.hash == keep
  {
    SchedulesAreSerial(db0, events);
    hide Exec;
    RevocationInLog(db0, log, k, m, id, keep);
  }

  /** The same for any list of calls with the answers they give one after another. */
  lemma RevocationInLog(db0: Db, log: seq<Entry>, k: nat, m: nat, id: int, keep: string)
    requires Truthful(db0, log) && k < m < |log| && Revocation(log[k], id, keep)
    requires forall j :: k < j < m ==> !OpensSession(log[j], id)
    requires log[m].call.Resolve? && log[m].reply.Found? && log[m].reply.user.id == id
    ensures log[m].call.hash == keep
  {
    hide Apply;
    StepAt(db0, log, k);
    RevocationRevokes(StateAt(db0, log, k), log[k], id, keep);
    OnlyKeptLasts(db0, log, k + 1, m, id, keep);
    StepAt(db0, log, m);
    LookupNeedsSession(StateAt(db0, log, m), log[m].call);
  }

  ghost predicate NoSession(db: Db, id: int) {
    forall h :: h in db.sessions ==> db.sessions[h].userId != id
  }

  /** A change leaves the user no session at all if and only if keep names none of theirs. */
  lemma EndsAllIff(db0: Db, log: seq<Entry>, k: nat, id: int, keep: string)
    requires Truthful(db0, log) && k < |log| && Revocation(log[k], id, keep)
    ensures NoSession(StateAt(db0, log, k + 1), id) <==> !SessionOf(StateAt(db0, log, k), keep, id)
  {
    hide Apply;
    var before, after := StateAt(db0, log, k), StateAt(db0, log, k + 1);
    StepAt(db0, log, k);
    RevocationRevokes(before, log[k], id, keep);
    assert SessionOf(after, keep, id) <==> SessionOf(before, keep, id);
    forall h | h in after.sessions && !SessionOf(before, keep, id) ensures after.sessions[h].userId != id {
      assert SessionOf(after, h, id) <==> SessionOf(before, h, id) && h == keep;
    }
  }

  /** The call ends the session h of id, which expires at the given time. */
  predicate EndsSession(e: Entry, h: string, id: int, expiry: int) {
    match e.call
    case UpdateUser(_, _, keep, _) => Revocation(e, id, keep) && keep != h
    case DeleteUser(i) => i == id && e.reply.Done?
    case DeleteSession(hash) => hash == h
    case Purge(now) => expiry <= now
    case _ => false
  }

  lemma SessionStep(db: Db, e: Entry, h: string, id: int, expiry: int)
    requires e.reply == Apply(db, e.call).1 && !EndsSession(e, h, id, expiry)
    requires h in db.sessions && db.sessions[h] == SessionRow(id, expiry)
    ensures h in Apply(db, e.call).0.sessions && Apply(db, e.call).0.sessions[h] == SessionRow(id, expiry)
  {}

  lemma {:induction false} SessionLasts(db0: Db, log: seq<Entry>, k: nat, m: nat, h: string, id: int, expiry: int)
    requires Truthful(db0, log) && k <= m <= |log|
    requires var db := StateAt(db0, log, k); h in db.sessions && db.sessions[h] == SessionRow(id, expiry)
    requires forall j :: k <= j < m ==> !EndsSession(log[j], h, id, expiry)
    ensures var db := StateAt(db0, log, m); h in db.sessions && db.sessions[h] == SessionRow(id, expiry)
    decreases m
  {
    hide Apply;
    if k < m {
      SessionLasts(db0, log, k, m - 1, h, id, expiry);
      StepAt(db0, log, m - 1);
      SessionStep(StateAt(db0, log, m - 1), log[m - 1], h, id, expiry);
    }
  }

  /**
   * Of the sessions the user had before a revoking update exactly the kept one
   * outlives it, until some other call ends it.
   */
  lemma SurvivesIffKept(db0: Db, events: seq<Event>, log: seq<Entry>, k: nat, m: nat, id: int, keep: string, h: string)
    requires log == Exec(db0, events).log
    requires k < m <= |log| && Revocation(log[k], id, keep) && SessionOf(StateAt(db0, log, k), h, id)
    requires forall j :: k < j < m ==>
      !OpensSession(log[j], id) && !EndsSession(log[j], h, id, StateAt(db0, log, k).sessions[h].expiresAt)
    ensures SessionOf(StateAt(db0, log, m), h, id) <==> h == keep
  {
    SchedulesAreSerial(db0, events);
    hide Exec, Apply;
    StepAt(db0, log, k);
    RevocationRevokes(StateAt(db0, log, k), log[k], id, keep);
    if h == keep {
      SessionLasts(db0, log, k + 1, m, h, id, StateAt(db0, log, k).sessions[h].expiresAt);
    } else {
      OnlyKeptLasts(db0, log, k + 1, m, id, keep);
    }
  }

  lemma LookupDecides(db: Db, call: Call, id: int, expiry: int)
    requires call.Resolve? && call.now < expiry && id in db.users && db.users[id].active
    requires SessionOf(db, call.hash, id) ==> db.sessions[call.hash].expiresAt == expiry
    ensures var reply := Apply(db, call).1; reply.Found? && reply.user.id == id <==> SessionOf(db, call.hash, id)
  {}

  /**
   * So a lookup of a session the user had before, made before it expires and
   * while the user is active, answers with the user exactly for the kept one.
   */
  lemma LookupIffKept(db0: Db, log: seq<Entry>, k: nat, m: nat, id: int, keep: string, h: string, expiry: int)
    requires Truthful(db0, log) && k < m < |log| && Revocation(log[k], id, keep)
    requires var db := StateAt(db0, log, k); h in db.sessions && db.sessions[h] == SessionRow(id, expiry)
    requires forall j :: k < j < m ==> !OpensSession(log[j], id) && !EndsSession(log[j], h, id, expiry)
    requires log[m].call.Resolve? && log[m].call.hash == h && log[m].call.now < expiry
    requires var db := StateAt(db0, log, m); id in db.users && db.users[id].active
    ensures log[m].reply.Found? && log[m].reply.user.id == id <==> h == keep
  {
    hide Apply;
    StepAt(db0, log, k);
    RevocationRevokes(StateAt(db0, log, k), log[k], id, keep);
    assert SessionOf(StateAt(db0, log, k), h, id);
    StepAt(db0, log, m);
    if h == keep {
      SessionLasts(db0, log, k + 1, m, h, id, expiry);
    } else {
      OnlyKeptLasts(db0, log, k + 1, m, id, keep);
    }
    LookupDecides(StateAt(db0, log, m), log[m].call, id, expiry);
  }

  // ---------- passwords ----------

  /** The account exists and this is the part of its password that counts. */
  ghost predicate PasswordIs(db: Db, id: int, password: string) {
    id in db.users && db.users[id].hash.password == password
  }

  /** The call gave id the password pw. */
  predicate Changes(e: Entry, id: int, pw: string) {
    e.call.UpdateUser? && e.call.id == id && e.call.upd.password == Some(pw) && e.reply.Found?
  }

  predicate EndsPassword(e: Entry, id: int) {
    || (e.call.UpdateUser? && e.call.id == id && e.call.upd.password.Some? && e.reply.Found?)
    || (e.call.DeleteUser? && e.call.id == id && e.reply.Done?)
  }

  lemma PasswordStep(db: Db, e: Entry, id: int, password: string)
    requires PasswordIs(db, id, password) && Valid(db) && e.reply == Apply(db, e.call).1 && !EndsPassword(e, id)
    ensures PasswordIs(Apply(db, e.call).0, id, password)
  {
    assert id <= db.lastId;
  }

  lemma {:induction false} PasswordLasts(db0: Db, log: seq<Entry>, k: nat, m: nat, id: int, password: string)
    requires Valid(db0) && Truthful(db0, log) && k <= m <= |log| && PasswordIs(StateAt(db0, log, k), id, password)
    requires forall j :: k <= j < m ==> !EndsPassword(log[j], id)
    ensures PasswordIs(StateAt(db0, log, m), id, password)
    decreases m
  {
    hide Apply, Valid, PasswordIs;
    if k < m {
      PasswordLasts(db0, log, k, m - 1, id, password);
      StepAt(db0, log, m - 1);
      ValidAt(db0, log, m - 1);
      PasswordStep(StateAt(db0, log, m - 1), log[m - 1], id, password);
    }
  }

  lemma ChangeSets(db: Db, e: Entry, id: int, pw: string)
    requires Changes(e, id, pw) && e.reply == Apply(db, e.call).1
    ensures PasswordIs(Apply(db, e.call).0, id, pw) && id in db.users && |pw| <= 72
  {}

  lemma AuthenticationMatches(db: Db, e: Entry, id: int)
    requires e.call.Authenticate? && e.reply == Apply(db, e.call).1 && e.reply.Found? && e.reply.user.id == id
    ensures Apply(db, e.call).0 == db && PasswordIs(db, id, Effective(e.call.password))
  {}

  lemma AuthenticationDecides(db: Db, e: Entry, id: int, pw: string)
    requires Valid(db) && e.call.Authenticate? && e.reply == Apply(db, e.call).1 && PasswordIs(db, id, pw)
    ensures e.reply.Found? && e.reply.user.id == id <==>
      db.users[id].active && Fold(db.users[id].username) == Fold(e.call.username) && Effective(e.call.password) == pw
  {}

  /**
   * After a password change, and until the next one or the deletion of the
   * account, the logins answered with the account are exactly those that give
   * its name and the new password while it is active.
   */
  lemma OnlyNewAuthenticates(db0: Db, events: seq<Event>, log: seq<Entry>, k: nat, m: nat, id: int, pw: string)
    requires Valid(db0) && log == Exec(db0, events).log
    requires k < m < |log| && Changes(log[k], id, pw) && log[m].call.Authenticate?
    requires forall j :: k < j < m ==> !EndsPassword(log[j], id)
    ensures var db := StateAt(db0, log, m);
      && id in db.users
      && (log[m].reply.Found? && log[m].reply.user.id == id <==>
            db.users[id].active && Fold(db.users[id].username) == Fold(log[m].call.username)
            && Effective(log[m].call.password) == pw)
  {
    SchedulesAreSerial(db0, events);
    hide Exec, Apply, Valid;
    StepAt(db0, log, k);
    ChangeSets(StateAt(db0, log, k), log[k], id, pw);
    PasswordLasts(db0, log, k + 1, m, id, pw);
    ValidAt(db0, log, m);
    StepAt(db0, log, m);
    AuthenticationDecides(StateAt(db0, log, m), log[m], id, pw);
  }
}
