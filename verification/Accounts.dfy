/** What the account store promises over whole runs, for every schedule of its calls. */
module Accounts {
  import opened Database
  import opened Transactions

  // ---------- one call at a time ----------

  lemma ApplyKeepsValid(db: Db, call: Call)
    requires Valid(db)
    ensures Valid(Apply(db, call).0) && Apply(db, call).0.lastId >= db.lastId
  {
    if call.CreateUser? && NamedIds(db, call.username) == {} {
      forall id | id in db.users ensures Fold(db.users[id].username) != Fold(call.username) {
        assert id !in NamedIds(db, call.username);
      }
    }
  }

  /** The demotion, deactivation and deletion guards never let the last active admin go. */
  lemma ApplyKeepsAdmin(db: Db, call: Call)
    requires Valid(db) && HasAdmin(db)
    ensures HasAdmin(Apply(db, call).0)
  {
    var next := Apply(db, call).0;
    var admin :| admin in db.users && IsActiveAdmin(db.users[admin]);
    if (call.UpdateUser? || call.DeleteUser?) && call.id == admin && next != db {
      if OtherAdmins(db, admin) != {} {
        var other :| other in OtherAdmins(db, admin);
        assert other in next.users && IsActiveAdmin(next.users[other]);
      } else {
        assert admin in next.users && IsActiveAdmin(next.users[admin]);
      }
    } else {
      assert admin in next.users && IsActiveAdmin(next.users[admin]);
    }
  }

  // ---------- runs ----------

  /** The tables before entry k of a log. */
  ghost function StateAt(db0: Db, log: seq<Entry>, k: nat): Db
    requires k <= |log|
  {
    Replay(db0, log[..k])
  }

  lemma StepAt(db0: Db, log: seq<Entry>, k: nat)
    requires k < |log| && Truthful(db0, log)
    ensures Apply(StateAt(db0, log, k), log[k].call) == (StateAt(db0, log, k + 1), log[k].reply)
  {
    hide Apply;
    assert log[..k + 1][..k] == log[..k];
  }

  lemma {:induction false} ValidAt(db0: Db, log: seq<Entry>, k: nat)
    requires Valid(db0) && Truthful(db0, log) && k <= |log|
    ensures Valid(StateAt(db0, log, k))
  {
    hide Apply, Valid;
    if k > 0 {
      ValidAt(db0, log, k - 1);
      StepAt(db0, log, k - 1);
      ApplyKeepsValid(StateAt(db0, log, k - 1), log[k - 1].call);
    }
  }

  lemma {:induction false} AdminLasts(db0: Db, log: seq<Entry>, k: nat, m: nat)
    requires Valid(db0) && Truthful(db0, log) && k <= m <= |log| && HasAdmin(StateAt(db0, log, k))
    ensures HasAdmin(StateAt(db0, log, m))
    decreases m
  {
    hide Apply, Valid, HasAdmin;
    if k < m {
      AdminLasts(db0, log, k, m - 1);
      StepAt(db0, log, m - 1);
      ValidAt(db0, log, m - 1);
      ApplyKeepsAdmin(StateAt(db0, log, m - 1), log[m - 1].call);
    }
  }

  /** Unique names, foreign keys, valid roles and never-reused ids hold in every committed state. */
  lemma TablesStayValid(db0: Db, events: seq<Event>)
    requires Valid(db0)
    ensures Valid(Exec(db0, events).db)
  {
    SchedulesAreSerial(db0, events);
    hide Exec;
    var log := Exec(db0, events).log;
    ValidAt(db0, log, |log|);
    assert log[..|log|] == log;
  }

  /** Once a committed state has an active admin, every later one does, however calls interleave. */
  lemma LastAdminSurvives(db0: Db, before: seq<Event>, after: seq<Event>)
    requires Valid(db0) && HasAdmin(Exec(db0, before).db)
    ensures HasAdmin(Exec(db0, before + after).db)
  {
    SchedulesAreSerial(db0, before);
    SchedulesAreSerial(db0, before + after);
    LogGrows(db0, before, after);
    hide Exec, HasAdmin, Valid;
    var s, t := Exec(db0, before), Exec(db0, before + after);
    assert t.log[..|s.log|] == s.log && t.log[..|t.log|] == t.log;
    AdminLasts(db0, t.log, |s.log|, |t.log|);
  }

  // ---------- deletion ----------

  /** The account is gone for good: no row, no session, and its number is already used up. */
  ghost predicate Gone(db: Db, id: int) {
    id !in db.users && 1 <= id <= db.lastId && forall h :: h in db.sessions ==> db.sessions[h].userId != id
  }

  lemma DeletionRemoves(db: Db, id: int)
    requires Valid(db) && Apply(db, DeleteUser(id)).1.Done?
    ensures Gone(Apply(db, DeleteUser(id)).0, id)
  {}

  lemma GoneStep(db: Db, id: int, call: Call)
    requires Gone(db, id)
    ensures Gone(Apply(db, call).0, id)
    ensures Apply(db, call).1.Found? ==> Apply(db, call).1.user.id != id
    ensures call.VerifyPassword? && call.id == id ==> Apply(db, call).1.NoUser?
  {}

  lemma {:induction false} GoneLasts(db0: Db, log: seq<Entry>, k: nat, m: nat, id: int)
    requires Truthful(db0, log) && k <= m <= |log| && Gone(StateAt(db0, log, k), id)
    ensures Gone(StateAt(db0, log, m), id)
    decreases m
  {
    hide Apply, Gone;
    if k < m {
      GoneLasts(db0, log, k, m - 1, id);
      StepAt(db0, log, m - 1);
      GoneStep(StateAt(db0, log, m - 1), id, log[m - 1].call);
    }
  }

  /** After a deletion no call ever answers with that account again, and no password is right for it. */
  lemma DeletedForGood(db0: Db, events: seq<Event>, log: seq<Entry>, k: nat, m: nat, id: int)
    requires Valid(db0) && log == Exec(db0, events).log
    requires k < m < |log| && log[k] == Entry(DeleteUser(id), Done)
    ensures log[m].reply.Found? ==> log[m].reply.user.id != id
    ensures log[m].call.VerifyPassword? && log[m].call.id == id ==> log[m].reply.NoUser?
  {
    SchedulesAreSerial(db0, events);
    hide Exec;
    DeletionInLog(db0, log, k, m, id);
  }

  /** The same for any list of calls with the answers they give one after another. */
  lemma DeletionInLog(db0: Db, log: seq<Entry>, k: nat, m: nat, id: int)
    requires Valid(db0) && Truthful(db0, log)
    requires k < m < |log| && log[k] == Entry(DeleteUser(id), Done)
    ensures log[m].reply.Found? ==> log[m].reply.user.id != id
    ensures log[m].call.VerifyPassword? && log[m].call.id == id ==> log[m].reply.NoUser?
  {
    hide Apply, Gone, Valid;
    ValidAt(db0, log, k);
    StepAt(db0, log, k);
    DeletionRemoves(StateAt(db0, log, k), id);
    GoneLasts(db0, log, k + 1, m, id);
    StepAt(db0, log, m);
    GoneStep(StateAt(db0, log, m), id, log[m].call);
  }

  // ---------- purging ----------

  /** The replies of a list of calls, one after another, when its purges never happen. */
  ghost function RepliesUnpurged(db: Db, calls: seq<Call>): seq<Reply>
    decreases |calls|
  {
    if calls == [] then []
    else if calls[0].Purge? then RepliesUnpurged(db, calls[1..])
    else [Apply(db, calls[0]).1] + RepliesUnpurged(Apply(db, calls[0]).0, calls[1..])
  }

  /** The replies to everything but the purges, when the purges do happen. */
  ghost function Observed(db: Db, calls: seq<Call>): seq<Reply>
    decreases |calls|
  {
    if calls == [] then []
    else (if calls[0].Purge? then [] else [Apply(db, calls[0]).1]) + Observed(Apply(db, calls[0]).0, calls[1..])
  }

  /** Tokens are random: no session is ever opened under a hash that is or was in use. */
  ghost predicate FreshTokens(db: Db, calls: seq<Call>) {
    && (forall i :: 0 <= i < |calls| && calls[i].CreateSession? ==> calls[i].hash !in db.sessions)
    && (forall i, j :: 0 <= i < j < |calls| && calls[i].CreateSession? && calls[j].CreateSession? ==>
          calls[i].hash != calls[j].hash)
  }

  /** No session is looked up with a clock reading older than that of an earlier purge. */
  ghost predicate ClockSettled(calls: seq<Call>) {
    forall i, j :: 0 <= i < j < |calls| && calls[i].Purge? && calls[j].Resolve? ==> calls[i].now <= calls[j].now
  }

  /** purged is full without some sessions that every remaining lookup would find expired. */
  ghost predicate Similar(purged: Db, full: Db, calls: seq<Call>) {
    && Extends(full, purged)
    && (forall h, i :: h in full.sessions && h !in purged.sessions && 0 <= i < |calls| && calls[i].Resolve? ==>
          full.sessions[h].expiresAt <= calls[i].now)
  }

  /** full has the same rows as purged, and maybe more sessions. */
  ghost predicate Extends(full: Db, purged: Db) {
    && purged.users == full.users && purged.lastId == full.lastId
    && forall h :: h in purged.sessions ==> h in full.sessions && purged.sessions[h] == full.sessions[h]
  }

  lemma ExtendsStep(purged: Db, full: Db, call: Call)
    requires Extends(full, purged) && !call.Purge?
    requires call.CreateSession? ==> call.hash !in full.sessions
    requires call.Resolve? ==>
      forall h :: h in full.sessions && h !in purged.sessions ==> full.sessions[h].expiresAt <= call.now
    ensures Apply(purged, call).1 == Apply(full, call).1
    ensures Extends(Apply(full, call).0, Apply(purged, call).0)
  {}

  lemma PurgeShrinks(purged: Db, full: Db, call: Call)
    requires Extends(full, purged) && call.Purge?
    ensures Extends(full, Apply(purged, call).0)
  {}

  /** A session that only full has was missing before, or has just been purged. */
  lemma MissingStep(purged: Db, full: Db, call: Call, h: string)
    requires Extends(full, purged)
    requires var full' := if call.Purge? then full else Apply(full, call).0;
      h in full'.sessions && h !in Apply(purged, call).0.sessions
    ensures var full' := if call.Purge? then full else Apply(full, call).0;
      && h in full.sessions && full'.sessions[h] == full.sessions[h]
      && (h in purged.sessions ==> call.Purge? && full.sessions[h].expiresAt <= call.now)
  {}

  lemma SimilarStep(purged: Db, full: Db, calls: seq<Call>)
    requires calls != [] && Similar(purged, full, calls) && ClockSettled(calls)
    requires calls[0].CreateSession? ==> calls[0].hash !in full.sessions
    ensures var full' := if calls[0].Purge? then full else Apply(full, calls[0]).0;
      Similar(Apply(purged, calls[0]).0, full', calls[1..])
    ensures calls[0].Purge? || Apply(purged, calls[0]).1 == Apply(full, calls[0]).1
  {
    hide Apply;
    var call, rest := calls[0], calls[1..];
    var purged' := Apply(purged, call).0;
    var full' := if call.Purge? then full else Apply(full, call).0;
    if call.Purge? { PurgeShrinks(purged, full, call); } else { ExtendsStep(purged, full, call); }
    forall h, i | h in full'.sessions && h !in purged'.sessions && 0 <= i < |rest| && rest[i].Resolve?
      ensures full'.sessions[h].expiresAt <= rest[i].now
    {
      assert rest[i] == calls[i + 1];
      MissingStep(purged, full, call, h);
      if call.Purge? && h in purged.sessions { assert call.now <= calls[i + 1].now; }
    }
  }

  /**
   * Purging is unobservable: with fresh tokens and a clock that does not run
   * backwards, every other call gets the reply it would have got without it.
   */
  lemma {:induction false} PurgeUnobservable(purged: Db, full: Db, calls: seq<Call>)
    requires Similar(purged, full, calls)
    requires FreshTokens(full, calls) && ClockSettled(calls)
    ensures Observed(purged, calls) == RepliesUnpurged(full, calls)
    decreases |calls|
  {
    if calls != [] {
      var call, rest := calls[0], calls[1..];
      SimilarStep(purged, full, calls);
      var full' := if call.Purge? then full else Apply(full, call).0;
      assert FreshTokens(full', rest) by {
        forall i | 0 <= i < |rest| && rest[i].CreateSession? ensures rest[i].hash !in full'.sessions {
          assert rest[i] == calls[i + 1];
        }
        assert forall i, j :: 0 <= i < j < |rest| ==> rest[i] == calls[i + 1] && rest[j] == calls[j + 1];
      }
      assert ClockSettled(rest) by {
        assert forall i, j :: 0 <= i < j < |rest| ==> rest[i] == calls[i + 1] && rest[j] == calls[j + 1];
      }
      PurgeUnobservable(Apply(purged, call).0, full', rest);
    }
  }

  /** Started from the same tables, purging and never purging give the same replies. */
  lemma PurgeNeverShows(db: Db, calls: seq<Call>)
    requires FreshTokens(db, calls) && ClockSettled(calls)
    ensures Observed(db, calls) == RepliesUnpurged(db, calls)
  {
    PurgeUnobservable(db, db, calls);
  }
}
