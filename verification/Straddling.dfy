/**
 * Requests that make two store calls, with calls of others in between: logins
 * and changes of one's own password (internal/auth/session.go:119-196).
 */
module Straddling {
  import opened Accounts
  import opened Database
  import opened Passwords
  import opened Transactions
  import opened Wrappers

  // ---------- logins that straddle a change ----------

  /** Entries i and j are the two store calls of one login of id: first the password, later the session. */
  predicate Login(log: seq<Entry>, i: nat, j: nat, id: int) {
    && i < j < |log|
    && log[i].call.Authenticate? && log[i].reply.Found? && log[i].reply.user.id == id
    && OpensSession(log[j], id)
  }

  /**
   * A session opened after a password change stems from the old password if
   * and only if its login checked the password before the change. Nothing
   * else about the password of id may change between that check and the change.
   */
  lemma LoginStraddles(db0: Db, events: seq<Event>, log: seq<Entry>, k: nat, i: nat, j: nat,
                       id: int, previous: string, pw: string)
    requires Valid(db0) && log == Exec(db0, events).log
    requires Login(log, i, j, id) && k < j && k != i && Changes(log[k], id, pw)
    requires PasswordIs(StateAt(db0, log, k), id, previous) && previous != pw
    requires forall n :: i < n < k || k < n < i ==> !EndsPassword(log[n], id)
    ensures Effective(log[i].call.password) == if i < k then previous else pw
    ensures Effective(log[i].call.password) == previous <==> i < k
  {
    SchedulesAreSerial(db0, events);
    hide Exec, Apply, Valid, PasswordIs, StateAt;
    if i < k { CheckedBefore(db0, log, i, k, id); } else { CheckedAfter(db0, log, k, i, id, pw); }
    OnePassword(StateAt(db0, log, k), id, previous, Effective(log[i].call.password));
  }

  lemma OnePassword(db: Db, id: int, a: string, b: string)
    requires PasswordIs(db, id, a)
    ensures PasswordIs(db, id, b) <==> a == b
  {}

  lemma CheckedBefore(db0: Db, log: seq<Entry>, i: nat, k: nat, id: int)
    requires Valid(db0) && Truthful(db0, log) && i < k < |log|
    requires log[i].call.Authenticate? && log[i].reply.Found? && log[i].reply.user.id == id
    requires forall n :: i < n < k ==> !EndsPassword(log[n], id)
    ensures PasswordIs(StateAt(db0, log, k), id, Effective(log[i].call.password))
  {
    hide Apply, Valid, PasswordIs;
    StepAt(db0, log, i);
    AuthenticationMatches(StateAt(db0, log, i), log[i], id);
    PasswordLasts(db0, log, i, k, id, Effective(log[i].call.password));
  }

  lemma CheckedAfter(db0: Db, log: seq<Entry>, k: nat, i: nat, id: int, pw: string)
    requires Valid(db0) && Truthful(db0, log) && k < i < |log| && Changes(log[k], id, pw)
    requires log[i].call.Authenticate? && log[i].reply.Found? && log[i].reply.user.id == id
    requires forall n :: k < n < i ==> !EndsPassword(log[n], id)
    ensures Effective(log[i].call.password) == pw
  {
    hide Apply, Valid;
    StepAt(db0, log, i);
    AuthenticationMatches(StateAt(db0, log, i), log[i], id);
    StepAt(db0, log, k);
    ChangeSets(StateAt(db0, log, k), log[k], id, pw);
    PasswordLasts(db0, log, k + 1, i, id, pw);
  }

  // ---------- own changes that straddle another ----------

  /** Before entry j the last call that ended the password of id since entry i was one that set it to pw. */
  ghost predicate LastSet(log: seq<Entry>, i: nat, j: nat, id: int, pw: string)
    requires j <= |log|
  {
    exists k :: i < k < j && Changes(log[k], id, pw) && forall n :: k < n < j ==> !EndsPassword(log[n], id)
  }

  /**
   * Changing one's own password is two calls, a check of the current password
   * and an update. When the update takes place, the password checked is still
   * that of the account if and only if no call ended it in between, or the
   * last one that did set it again.
   */
  lemma OwnChangeRests(db0: Db, events: seq<Event>, log: seq<Entry>, i: nat, j: nat, id: int, current: string)
    requires Valid(db0) && log == Exec(db0, events).log && i < j < |log|
    requires log[i] == Entry(VerifyPassword(id, current), Done)
    requires log[j].call.UpdateUser? && log[j].call.id == id && log[j].reply.Found?
    ensures PasswordIs(StateAt(db0, log, j), id, Effective(current))
      <==> (forall n :: i < n < j ==> !EndsPassword(log[n], id)) || LastSet(log, i, j, id, Effective(current))
  {
    hide Exec, Apply, Valid, PasswordIs, StateAt, EndsPassword, LastSet, Effective, Truthful;
    ExecReplays(db0, events);
    if some :| i < some < j && EndsPassword(log[some], id) {
      var k := LastEnd(log, some, j, id);
      SetLast(db0, log, k, j, id);
      var pw := log[k].call.upd.password.value;
      OnePassword(StateAt(db0, log, j), id, pw, Effective(current));
      LastSetIs(log, i, k, j, id, Effective(current));
    } else {
      CheckedHolds(db0, log, i, j, id, current);
      NeverSet(log, i, j, id, Effective(current));
    }
  }

  lemma NeverSet(log: seq<Entry>, i: nat, j: nat, id: int, pw: string)
    requires j <= |log| && forall n :: i < n < j ==> !EndsPassword(log[n], id)
    ensures !LastSet(log, i, j, id, pw)
  {}

  lemma LastSetIs(log: seq<Entry>, i: nat, k: nat, j: nat, id: int, pw: string)
    requires i < k < j <= |log| && EndsPassword(log[k], id) && log[k].call.UpdateUser?
    requires forall n :: k < n < j ==> !EndsPassword(log[n], id)
    ensures LastSet(log, i, j, id, pw) <==> log[k].call.upd.password.value == pw
  {
    if log[k].call.upd.password.value == pw { assert Changes(log[k], id, pw); }
    if LastSet(log, i, j, id, pw) {
      var m :| i < m < j && Changes(log[m], id, pw) && forall n :: m < n < j ==> !EndsPassword(log[n], id);
      assert m == k;
    }
  }

  lemma {:induction false} LastEnd(log: seq<Entry>, k: nat, j: nat, id: int) returns (last: nat)
    requires k < j <= |log| && EndsPassword(log[k], id)
    ensures k <= last < j && EndsPassword(log[last], id) && forall n :: last < n < j ==> !EndsPassword(log[n], id)
    decreases j
  {
    if EndsPassword(log[j - 1], id) { last := j - 1; } else { last := LastEnd(log, k, j - 1, id); }
  }

  lemma VerifiedMatches(db: Db, id: int, password: string)
    requires Apply(db, VerifyPassword(id, password)).1.Done?
    ensures Apply(db, VerifyPassword(id, password)).0 == db && PasswordIs(db, id, Effective(password))
  {}

  lemma CheckedHolds(db0: Db, log: seq<Entry>, i: nat, j: nat, id: int, current: string)
    requires Valid(db0) && Truthful(db0, log) && i < j <= |log| && log[i] == Entry(VerifyPassword(id, current), Done)
    requires forall n :: i < n < j ==> !EndsPassword(log[n], id)
    ensures PasswordIs(StateAt(db0, log, j), id, Effective(current))
  {
    hide Apply, Valid, PasswordIs;
    StepAt(db0, log, i);
    VerifiedMatches(StateAt(db0, log, i), id, current);
    PasswordLasts(db0, log, i, j, id, Effective(current));
  }

  lemma UpdateAnswersSelf(db: Db, call: Call)
    requires call.UpdateUser? && Apply(db, call).1.Found?
    ensures Apply(db, call).1.user.id == call.id
  {}

  /** The last call to end a password before an accepted update is not a deletion, and its password holds. */
  lemma SetLast(db0: Db, log: seq<Entry>, k: nat, j: nat, id: int)
    requires Valid(db0) && Truthful(db0, log) && k < j < |log| && EndsPassword(log[k], id)
    requires forall n :: k < n < j ==> !EndsPassword(log[n], id)
    requires log[j].call.UpdateUser? && log[j].call.id == id && log[j].reply.Found?
    ensures log[k].call.UpdateUser? && PasswordIs(StateAt(db0, log, j), id, log[k].call.upd.password.value)
  {
    hide Apply, Valid, PasswordIs;
    StepAt(db0, log, j);
    UpdateAnswersSelf(StateAt(db0, log, j), log[j].call);
    if log[k].call.DeleteUser? {
      DeletionInLog(db0, log, k, j, id);
      assert false;
    } else {
      StepAt(db0, log, k);
      ChangeSets(StateAt(db0, log, k), log[k], id, log[k].call.upd.password.value);
      PasswordLasts(db0, log, k + 1, j, id, log[k].call.upd.password.value);
    }
  }

  // ---------- logins that straddle a deactivation ----------

  /** The update left the account active, or inactive. */
  predicate LeavesActive(e: Entry, id: int, active: bool) {
    e.call.UpdateUser? && e.call.id == id && e.reply.Found? && e.reply.user.active == active
  }

  ghost predicate Inactive(db: Db, id: int) {
    1 <= id <= db.lastId && (id in db.users ==> !db.users[id].active)
  }

  lemma InactiveStep(db: Db, e: Entry, id: int)
    requires e.reply == Apply(db, e.call).1
    ensures Inactive(db, id) && !LeavesActive(e, id, true) ==> Inactive(Apply(db, e.call).0, id)
    ensures Valid(db) && LeavesActive(e, id, false) ==> Inactive(Apply(db, e.call).0, id)
    ensures Inactive(db, id) && e.call.Authenticate? && e.reply.Found? ==> e.reply.user.id != id
  {}

  lemma {:induction false} InactiveLasts(db0: Db, log: seq<Entry>, k: nat, m: nat, id: int)
    requires Truthful(db0, log) && k <= m <= |log| && Inactive(StateAt(db0, log, k), id)
    requires forall n :: k <= n < m ==> !LeavesActive(log[n], id, true)
    ensures Inactive(StateAt(db0, log, m), id)
    decreases m
  {
    hide Apply, Inactive;
    if k < m {
      InactiveLasts(db0, log, k, m - 1, id);
      StepAt(db0, log, m - 1);
      InactiveStep(StateAt(db0, log, m - 1), log[m - 1], id);
    }
  }

  /** A login that opens a session after a deactivation checked the password before it, or after a reactivation. */
  lemma DeactivationStraddles(db0: Db, events: seq<Event>, log: seq<Entry>, k: nat, i: nat, j: nat, id: int)
    requires Valid(db0) && log == Exec(db0, events).log
    requires Login(log, i, j, id) && k < j && LeavesActive(log[k], id, false)
    ensures i < k || exists n :: k < n < i && LeavesActive(log[n], id, true)
  {
    SchedulesAreSerial(db0, events);
    hide Exec, Apply, Valid, Inactive;
    if k < i && forall n :: k < n < i ==> !LeavesActive(log[n], id, true) {
      ValidAt(db0, log, k);
      StepAt(db0, log, k);
      InactiveStep(StateAt(db0, log, k), log[k], id);
      InactiveLasts(db0, log, k + 1, i, id);
      StepAt(db0, log, i);
      InactiveStep(StateAt(db0, log, i), log[i], id);
    }
  }

  // ---------- what straddling leads to ----------

  const OLD := "old-secret"
  const NEW := "new-secret"
  const RESET := "reset-by-admin"

  /** A single account. */
  function Ana(password: string, active: bool): UserRow { UserRow("ana", PwHash(password, 0), VIEWER, active, 0) }

  const ANA := User(1, "ana", VIEWER, true, 0)

  /** The tables with this account, number 1, and its sessions. */
  function Only(row: UserRow, tokens: set<string>): Db {
    Db(map[1 := row], map h | h in tokens :: SessionRow(1, 100), 1)
  }

  /** The calls below on such tables. */
  ghost function Outcome(row: UserRow, tokens: set<string>, call: Call): (UserRow, set<string>, Reply) {
    match call
    case UpdateUser(_, upd, keep, salt) =>
      var next := Updated(row, upd, salt);
      (next, if Revokes(upd, next) then tokens * {keep} else tokens, Found(ToUser(1, next)))
    case Authenticate(_, password) =>
      (row, tokens, if row.active && Matches(row.hash, password) then Found(ToUser(1, row)) else NoUser)
    case VerifyPassword(_, password) => (row, tokens, if Matches(row.hash, password) then Done else NoUser)
    case CreateSession(hash, _, _) => (row, tokens + {hash}, Done)
    case Resolve(hash, _) => (row, tokens, if hash in tokens && row.active then Found(ToUser(1, row)) else NoUser)
    case _ => (row, tokens, Done)
  }

  /** The call comes from or concerns that account. */
  predicate Concerns(row: UserRow, tokens: set<string>, call: Call) {
    match call
    case UpdateUser(id, _, _, _) => id == 1 && row.role == VIEWER && Rejection(call).None?
    case Authenticate(name, _) => name == row.username
    case VerifyPassword(id, _) => id == 1
    case CreateSession(hash, id, expiry) => id == 1 && expiry == 100 && hash !in tokens
    case Resolve(_, now) => now < 100
    case _ => false
  }

  lemma OutcomeIs(row: UserRow, tokens: set<string>, call: Call)
    requires Concerns(row, tokens, call)
    ensures var (row', tokens', reply) := Outcome(row, tokens, call);
      Apply(Only(row, tokens), call) == (Only(row', tokens'), reply)
  {
    var (row', tokens', reply) := Outcome(row, tokens, call);
    var db := Only(row, tokens);
    var (next, answer) := Apply(db, call);
    assert 1 in db.users;
    assert next.sessions == Only(row', tokens').sessions;
    assert next.users == Only(row', tokens').users;
  }

  /** A truthful log goes on with any call about the account and the answer it gets. */
  lemma Tell(db0: Db, log: seq<Entry>, row: UserRow, tokens: set<string>, call: Call,
             row': UserRow, tokens': set<string>, reply: Reply)
    returns (next: seq<Entry>)
    requires Truthful(db0, log) && Replay(db0, log) == Only(row, tokens)
    requires Concerns(row, tokens, call) && Outcome(row, tokens, call) == (row', tokens', reply)
    ensures next == log + [Entry(call, reply)] && Truthful(db0, next) && Replay(db0, next) == Only(row', tokens')
  {
    OutcomeIs(row, tokens, call);
    hide Apply, Outcome, Concerns, Only;
    next := log + [Entry(call, reply)];
    assert next[..|log|] == log;
    forall k | 0 <= k < |next| ensures next[k].reply == Apply(Replay(db0, next[..k]), next[k].call).1 {
      if k < |log| { assert next[..k] == log[..k]; }
    }
  }

  lemma NothingTold(row: UserRow, tokens: set<string>)
    requires row.role == VIEWER
    ensures var db := Only(row, tokens); Valid(db) && Truthful(db, []) && Replay(db, []) == db
  {}

  const CHANGE := UpdateUser(1, Update(None, None, Some(NEW)), "kept", 0)
  const CHANGE_BY_ADMIN := UpdateUser(1, Update(None, None, Some(RESET)), "", 0)
  const DEACTIVATION := UpdateUser(1, Update(None, Some(false), None), "", 0)
  const REACTIVATION := UpdateUser(1, Update(None, Some(true), None), "", 0)

  /**
   * A schedule in which a login has its password checked, the password is
   * changed, and the login then opens its session: the session of the change and
   * the late one both resolve, although the old password no longer logs in.
   */
  lemma ChangeIsOutlived() returns (events: seq<Event>)
    ensures Valid(Only(Ana(OLD, true), {"kept"}))
    ensures Exec(Only(Ana(OLD, true), {"kept"}), events).log == [
      Entry(Authenticate("ana", OLD), Found(ANA)),
      Entry(CHANGE, Found(ANA)),
      Entry(CreateSession("late", 1, 100), Done),
      Entry(Resolve("late", 0), Found(ANA)),
      Entry(Resolve("kept", 0), Found(ANA)),
      Entry(Authenticate("ana", OLD), NoUser)]
  {
    hide Truthful, Replay, Only, Apply, Exec, Valid;
    var before, after, kept, both := Ana(OLD, true), Ana(NEW, true), {"kept"}, {"kept"} + {"late"};
    var db := Only(before, kept);
    NothingTold(before, kept);
    assert OLD[0] != NEW[0] && "late"[0] != "kept"[0] && kept * {"kept"} == kept;
    var log := Tell(db, [], before, kept, Authenticate("ana", OLD), before, kept, Found(ANA));
    log := Tell(db, log, before, kept, CHANGE, after, kept, Found(ANA));
    log := Tell(db, log, after, kept, CreateSession("late", 1, 100), after, both, Done);
    log := Tell(db, log, after, both, Resolve("late", 0), after, both, Found(ANA));
    log := Tell(db, log, after, both, Resolve("kept", 0), after, both, Found(ANA));
    log := Tell(db, log, after, both, Authenticate("ana", OLD), after, both, NoUser);
    events := EveryLogHappens(db, log);
  }

  /**
   * A schedule in which the account is deactivated between the two calls of a
   * login: the session opened then resolves once the account is active again.
   */
  lemma DeactivationIsOutlived() returns (events: seq<Event>)
    ensures Valid(Only(Ana(OLD, true), {"kept"}))
    ensures Exec(Only(Ana(OLD, true), {"kept"}), events).log == [
      Entry(Authenticate("ana", OLD), Found(ANA)),
      Entry(DEACTIVATION, Found(ANA.(active := false))),
      Entry(CreateSession("late", 1, 100), Done),
      Entry(Resolve("late", 0), NoUser),
      Entry(REACTIVATION, Found(ANA)),
      Entry(Resolve("late", 0), Found(ANA)),
      Entry(Resolve("kept", 0), NoUser)]
  {
    hide Truthful, Replay, Only, Apply, Exec, Valid;
    var active, inactive, kept, late := Ana(OLD, true), Ana(OLD, false), {"kept"}, {} + {"late"};
    var db := Only(active, kept);
    NothingTold(active, kept);
    assert "late"[0] != "kept"[0] && |""| != |"kept"| && kept * {""} == {};
    var log := Tell(db, [], active, kept, Authenticate("ana", OLD), active, kept, Found(ANA));
    log := Tell(db, log, active, kept, DEACTIVATION, inactive, {}, Found(ANA.(active := false)));
    log := Tell(db, log, inactive, {}, CreateSession("late", 1, 100), inactive, late, Done);
    log := Tell(db, log, inactive, late, Resolve("late", 0), inactive, late, NoUser);
    log := Tell(db, log, inactive, late, REACTIVATION, active, late, Found(ANA));
    log := Tell(db, log, active, late, Resolve("late", 0), active, late, Found(ANA));
    log := Tell(db, log, active, late, Resolve("kept", 0), active, late, NoUser);
    events := EveryLogHappens(db, log);
  }

  /**
   * A schedule in which an administrator resets the password between the two
   * calls of a change: the reset is lost to a request that knew only the old one.
   */
  lemma ResetIsOverwritten() returns (events: seq<Event>)
    ensures Valid(Only(Ana(OLD, true), {"kept"}))
    ensures Exec(Only(Ana(OLD, true), {"kept"}), events).log == [
      Entry(VerifyPassword(1, OLD), Done),
      Entry(CHANGE_BY_ADMIN, Found(ANA)),
      Entry(CHANGE, Found(ANA)),
      Entry(Authenticate("ana", RESET), NoUser),
      Entry(Authenticate("ana", NEW), Found(ANA))]
  {
    hide Truthful, Replay, Only, Apply, Exec, Valid;
    var before, reset, after, kept := Ana(OLD, true), Ana(RESET, true), Ana(NEW, true), {"kept"};
    var db := Only(before, kept);
    NothingTold(before, kept);
    assert RESET[0] != NEW[0] && |""| != |"kept"| && kept * {""} == {} == {} * {"kept"};
    var log := Tell(db, [], before, kept, VerifyPassword(1, OLD), before, kept, Done);
    log := Tell(db, log, before, kept, CHANGE_BY_ADMIN, reset, {}, Found(ANA));
    log := Tell(db, log, reset, {}, CHANGE, after, {}, Found(ANA));
    log := Tell(db, log, after, {}, Authenticate("ana", RESET), after, {}, NoUser);
    log := Tell(db, log, after, {}, Authenticate("ana", NEW), after, {}, Found(ANA));
    events := EveryLogHappens(db, log);
  }
}
