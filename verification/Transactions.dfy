/**
 * Store calls as interleaved processes. A transaction takes the only
 * connection when it begins and runs one statement per step on a working copy
 * until it commits or rolls back; single-statement calls need the connection
 * to be free (internal/users/store.go:81-83). Any number of calls may be in
 * progress, and any database operation may fail.
 */
module Transactions {
  import opened Wrappers
  import opened Database

  /** Where a transaction stands: the statement it will run next. */
  datatype Pc =
    | Begun
    | Counting(next: UserRow)
    | Writing(next: UserRow)
    | Rehashing(next: UserRow)
    | Revoking(next: UserRow)
    | Committing(reply: Reply)

  datatype Outcome = Go(pc: Pc, work: Db) | Rollback(reply: Reply) | Commit(work: Db, reply: Reply)

  predicate Transactional(call: Call) { call.CreateUser? || call.UpdateUser? || call.DeleteUser? }

  /** Which statements a call can be at. */
  predicate Fits(call: Call, pc: Pc) {
    && Transactional(call)
    && (pc.Counting? ==> !call.CreateUser?)
    && (pc.Rehashing? ==> call.UpdateUser? && call.upd.password.Some?)
    && (pc.Revoking? ==> call.UpdateUser?)
  }

  /** One statement of a transaction. */
  function Statement(call: Call, pc: Pc, work: Db): (o: Outcome)
    requires Fits(call, pc)
    ensures o.Go? ==> Fits(call, o.pc) && Rank(o.pc) < Rank(pc)
  {
    match pc
    case Begun =>
      if call.CreateUser? then
        if NamedIds(work, call.username) != {} then Rollback(Failed(UsernameTaken))
        else Go(Writing(UserRow(call.username, PwHash(call.password, call.salt), call.newRole, true, call.now)), work)
      else if call.id !in work.users then Rollback(Failed(NotFound))
      else
        var cur := work.users[call.id];
        var next := if call.UpdateUser? then Patch(cur, call.upd) else cur;
        var countFirst := if call.UpdateUser? then LosesAdmin(cur, next) else IsActiveAdmin(cur);
        Go(if countFirst then Counting(next) else Writing(next), work)
    case Counting(next) =>
      if OtherAdmins(work, call.id) == {} then Rollback(Failed(LastAdmin)) else Go(Writing(next), work)
    case Writing(next) =>
      (match call
       case CreateUser(_, _, _, _, _) =>
         var w := InsertUser(work, next);
         Go(Committing(Found(ToUser(w.lastId, next))), w)
       case UpdateUser(id, upd, _, _) =>
         Go(if upd.password.Some? then Rehashing(next) else AfterRehash(id, upd, next),
            SetRoleActive(work, id, next.role, next.active))
       case DeleteUser(id) => Go(Committing(Done), DropUser(work, id)))
    case Rehashing(next) =>
      Go(AfterRehash(call.id, call.upd, next), SetHash(work, call.id, PwHash(call.upd.password.value, call.salt)))
    case Revoking(next) =>
      Go(Committing(Found(ToUser(call.id, next))), DropSessionsExcept(work, call.id, call.keep))
    case Committing(reply) => Commit(work, reply)
  }

  function AfterRehash(id: int, upd: Update, next: UserRow): Pc {
    if Revokes(upd, next) then Revoking(next) else Committing(Found(ToUser(id, next)))
  }

  function Rank(pc: Pc): nat {
    match pc
    case Begun => 5
    case Counting(_) => 4
    case Writing(_) => 3
    case Rehashing(_) => 2
    case Revoking(_) => 1
    case Committing(_) => 0
  }

  /** What the rest of a transaction does when nothing else happens in between. */
  function Finish(call: Call, pc: Pc, work: Db, db: Db): (Db, Reply)
    requires Fits(call, pc)
    decreases Rank(pc)
  {
    match Statement(call, pc, work)
    case Go(pc', work') => Finish(call, pc', work', db)
    case Rollback(reply) => (db, reply)
    case Commit(work', reply) => (work', reply)
  }

  // ---------- the whole system ----------

  /**
   * Finished without a reply: a database operation failed. The program tells
   * the caller of a write the error, and the caller of a lookup "no user".
   */
  datatype AnyProc =
    | Arrived(call: Call)
    | Waiting(call: Call)
    | InTx(call: Call, pc: Pc, work: Db)
    | Finished(call: Call, reply: Option<Reply>)

  type Proc = p: AnyProc | p.InTx? ==> Fits(p.call, p.pc) witness Arrived(Purge(0))

  datatype Entry = Entry(call: Call, reply: Reply)

  /**
   * log lists the calls that have answered, in the order their effect took
   * place, and answered the processes they belong to.
   */
  datatype Sys = Sys(db: Db, conn: Option<nat>, procs: map<nat, Proc>, answered: seq<nat>, log: seq<Entry>)

  datatype Event = Arrive(id: nat, call: Call) | Run(id: nat) | Fault(id: nat)

  function Start(db: Db): Sys { Sys(db, None, map[], [], []) }

  /** Answer with the given reply, leaving db committed and the connection as given. */
  function Answer(s: Sys, id: nat, db: Db, conn: Option<nat>, reply: Reply): Sys
    requires id in s.procs
  {
    var call := s.procs[id].call;
    Sys(db, conn, s.procs[id := Finished(call, Some(reply))], s.answered + [id], s.log + [Entry(call, reply)])
  }

  ghost function RunProc(s: Sys, id: nat): Sys
    requires id in s.procs
  {
    match s.procs[id]
    case Arrived(call) =>
      if Rejection(call).Some? then Answer(s, id, s.db, s.conn, Failed(Rejection(call).value))
      else s.(procs := s.procs[id := Waiting(call)])
    case Waiting(call) =>
      if s.conn.Some? then s
      else if Transactional(call) then s.(conn := Some(id), procs := s.procs[id := InTx(call, Begun, s.db)])
      else Answer(s, id, Apply(s.db, call).0, None, Apply(s.db, call).1)
    case InTx(call, pc, work) =>
      (match Statement(call, pc, work)
       case Go(pc', work') => s.(procs := s.procs[id := InTx(call, pc', work')])
       case Rollback(reply) => Answer(s, id, s.db, None, reply)
       case Commit(work', reply) => Answer(s, id, work', None, reply))
    case Finished(_, _) => s
  }

  ghost function Next(s: Sys, e: Event): Sys {
    match e
    case Arrive(id, call) => if id in s.procs then s else s.(procs := s.procs[id := Arrived(call)])
    case Run(id) => if id in s.procs then RunProc(s, id) else s
    case Fault(id) =>
      if id in s.procs && s.procs[id].InTx? then
        s.(conn := None, procs := s.procs[id := Finished(s.procs[id].call, None)])
      else if id in s.procs && s.procs[id].Waiting? then
        s.(procs := s.procs[id := Finished(s.procs[id].call, None)])
      else s
  }

  /** The system after a schedule, started on db0. */
  ghost function Exec(db0: Db, events: seq<Event>): Sys {
    if events == [] then Start(db0) else Next(Exec(db0, events[..|events| - 1]), events[|events| - 1])
  }

  // ---------- the atomic meaning ----------

  ghost function Replay(db0: Db, log: seq<Entry>): Db {
    if log == [] then db0 else Apply(Replay(db0, log[..|log| - 1]), log[|log| - 1].call).0
  }

  ghost predicate Truthful(db0: Db, log: seq<Entry>) {
    forall k :: 0 <= k < |log| ==> log[k].reply == Apply(Replay(db0, log[..k]), log[k].call).1
  }

  /** An accepted update, from its first write to its commit. */
  lemma WritesMakeUpdate(db: Db, call: Call, next: UserRow)
    requires call.UpdateUser? && call.id in db.users && next == Patch(db.users[call.id], call.upd)
    requires !(LosesAdmin(db.users[call.id], next) && OtherAdmins(db, call.id) == {})
    requires Rejection(call).None?
    ensures Finish(call, Writing(next), db, db) == Apply(db, call)
  {
    var (goal, reply) := Apply(db, call);
    var w := SetRoleActive(db, call.id, next.role, next.active);
    var w' := if call.upd.password.Some? then SetHash(w, call.id, PwHash(call.upd.password.value, call.salt)) else w;
    assert w'.users == goal.users;
    assert reply == Found(ToUser(call.id, next));
    if Revokes(call.upd, next) {
      assert DropSessionsExcept(w', call.id, call.keep) == goal;
      assert Finish(call, Revoking(next), w', db) == (goal, reply);
    } else {
      assert w' == goal;
      assert Finish(call, Committing(reply), w', db) == (goal, reply);
    }
    if call.upd.password.Some? {
      assert Finish(call, Rehashing(next), w, db) == (goal, reply);
    }
  }

  /** Run without interruption, the statements of a transaction are its atomic call. */
  lemma StatementsMakeCall(db: Db, call: Call)
    requires Transactional(call) && Rejection(call).None?
    ensures Finish(call, Begun, db, db) == Apply(db, call)
  {
    if call.CreateUser? {
      var row := UserRow(call.username, PwHash(call.password, call.salt), call.newRole, true, call.now);
      var w := InsertUser(db, row);
      assert Finish(call, Writing(row), db, db) == (w, Found(ToUser(w.lastId, row)));
    } else if call.DeleteUser? && call.id in db.users {
      var cur := db.users[call.id];
      assert Finish(call, Writing(cur), db, db) == (DropUser(db, call.id), Done);
    } else if call.UpdateUser? && call.id in db.users {
      var next := Patch(db.users[call.id], call.upd);
      if !(LosesAdmin(db.users[call.id], next) && OtherAdmins(db, call.id) == {}) {
        WritesMakeUpdate(db, call, next);
        if LosesAdmin(db.users[call.id], next) {
          assert Finish(call, Counting(next), db, db) == Apply(db, call);
        }
      }
    }
  }

  // ---------- every schedule is serial ----------

  ghost predicate ProcOk(s: Sys, id: nat)
    requires id in s.procs
  {
    var p := s.procs[id];
    && (p.Waiting? ==> Rejection(p.call).None?)
    && (p.InTx? ==>
          s.conn == Some(id) && Rejection(p.call).None?
          && Finish(p.call, p.pc, p.work, s.db) == Apply(s.db, p.call))
  }

  /** Log entries and processes that have answered correspond one to one. */
  ghost predicate Matched(s: Sys) {
    && |s.answered| == |s.log|
    && (forall j, k :: 0 <= j < k < |s.log| ==> s.answered[j] != s.answered[k])
    && (forall k :: 0 <= k < |s.log| ==>
          s.answered[k] in s.procs && s.procs[s.answered[k]] == Finished(s.log[k].call, Some(s.log[k].reply)))
    && (forall id :: id in s.procs && s.procs[id].Finished? && s.procs[id].reply.Some? ==> id in s.answered)
  }

  /** Only an open transaction holds the connection. */
  ghost predicate ConnHeld(s: Sys) {
    s.conn.Some? ==> s.conn.value in s.procs && s.procs[s.conn.value].InTx?
  }

  /**
   * The database is what the answered calls produce one after another, and each
   * open transaction still adds up to its call.
   */
  ghost predicate Inv(db0: Db, s: Sys) {
    && s.db == Replay(db0, s.log)
    && Truthful(db0, s.log)
    && Matched(s) && ConnHeld(s)
    && forall id :: id in s.procs ==> ProcOk(s, id)
  }

  lemma AnswerKeepsLog(db0: Db, s: Sys, id: nat, db: Db, conn: Option<nat>, reply: Reply)
    requires s.db == Replay(db0, s.log) && Truthful(db0, s.log)
    requires id in s.procs && Apply(s.db, s.procs[id].call) == (db, reply)
    ensures var t := Answer(s, id, db, conn, reply); t.db == Replay(db0, t.log) && Truthful(db0, t.log)
  {
    var t := Answer(s, id, db, conn, reply);
    assert t.log[..|t.log| - 1] == s.log;
    forall k | 0 <= k < |t.log| ensures t.log[k].reply == Apply(Replay(db0, t.log[..k]), t.log[k].call).1 {
      if k < |s.log| { assert t.log[..k] == s.log[..k]; }
    }
  }

  /** The step of one process adds at most its own answer, and that answer is the atomic one. */
  lemma RunKeepsLog(db0: Db, s: Sys, id: nat)
    requires Inv(db0, s) && id in s.procs && ProcOk(s, id)
    ensures var t := RunProc(s, id); t.db == Replay(db0, t.log) && Truthful(db0, t.log)
  {
    match s.procs[id]
    case Arrived(call) =>
      if Rejection(call).Some? { AnswerKeepsLog(db0, s, id, s.db, s.conn, Failed(Rejection(call).value)); }
    case Waiting(call) =>
      if s.conn.None? && !Transactional(call) {
        AnswerKeepsLog(db0, s, id, Apply(s.db, call).0, None, Apply(s.db, call).1);
      }
    case InTx(call, pc, work) =>
      match Statement(call, pc, work) {
        case Go(_, _) =>
        case Rollback(reply) => AnswerKeepsLog(db0, s, id, s.db, None, reply);
        case Commit(work', reply) => AnswerKeepsLog(db0, s, id, work', None, reply);
      }
    case Finished(_, _) =>
  }

  /** While a transaction is open nobody else commits, so what it has read stays true. */
  lemma RunKeepsOther(s: Sys, id: nat, other: nat)
    requires id in s.procs && ProcOk(s, id) && other in s.procs && ProcOk(s, other) && other != id
    ensures ProcOk(RunProc(s, id), other)
  {
    hide Statement, Apply, Finish, Rejection;
    var p, q := s.procs[id], s.procs[other];
    assert q.InTx? ==> !p.InTx? && (p.Waiting? ==> s.conn.Some?);
  }

  /** One statement leaves the rest of its transaction with the same total effect. */
  lemma RunKeepsOwn(s: Sys, id: nat)
    requires id in s.procs && ProcOk(s, id)
    ensures ProcOk(RunProc(s, id), id)
  {
    hide Statement, Apply, Rejection;
    if s.procs[id].Waiting? && Transactional(s.procs[id].call) {
      StatementsMakeCall(s.db, s.procs[id].call);
    }
  }

  lemma RunKeepsMatched(s: Sys, id: nat)
    requires Matched(s) && ConnHeld(s) && id in s.procs && ProcOk(s, id)
    ensures Matched(RunProc(s, id)) && ConnHeld(RunProc(s, id))
  {
    hide Statement, Apply, Finish, Rejection;
    var t := RunProc(s, id);
    if !s.procs[id].Finished? { assert id !in s.answered; }
    if t.log != s.log {
      assert t.answered == s.answered + [id];
      forall i | i in t.procs && t.procs[i].Finished? && t.procs[i].reply.Some? ensures i in t.answered {
        if i == id { assert t.answered[|s.log|] == id; }
      }
    }
  }

  lemma RunKeepsProcs(s: Sys, id: nat)
    requires id in s.procs
    ensures RunProc(s, id).procs.Keys == s.procs.Keys
  {
    hide Statement, Apply, Rejection;
  }

  lemma RunKeepsInv(db0: Db, s: Sys, id: nat)
    requires Inv(db0, s) && id in s.procs
    ensures Inv(db0, RunProc(s, id))
  {
    hide ProcOk, RunProc, Finish, Rejection, Replay, Truthful, Matched, ConnHeld, Apply;
    var t := RunProc(s, id);
    assert ProcOk(s, id);
    RunKeepsLog(db0, s, id);
    RunKeepsProcs(s, id);
    RunKeepsMatched(s, id);
    forall i | i in t.procs ensures ProcOk(t, i) {
      assert i in s.procs && ProcOk(s, i);
      if i == id { RunKeepsOwn(s, id); } else { RunKeepsOther(s, id, i); }
    }
  }

  lemma NextKeepsInv(db0: Db, s: Sys, e: Event)
    requires Inv(db0, s)
    ensures Inv(db0, Next(s, e))
  {
    hide RunProc, Finish, Apply, Rejection, Truthful, Replay;
    if e.Run? {
      if e.id in s.procs { RunKeepsInv(db0, s, e.id); }
    } else {
      var t := Next(s, e);
      forall id | id in t.procs ensures ProcOk(t, id) {
        if id in s.procs { assert ProcOk(s, id); }
      }
      assert Matched(t) && ConnHeld(t) by { OtherEventsKeepMatched(s, e); }
    }
  }

  lemma OtherEventsKeepMatched(s: Sys, e: Event)
    requires Matched(s) && ConnHeld(s) && !e.Run?
    requires forall id :: id in s.procs && s.procs[id].InTx? ==> s.conn == Some(id)
    ensures Matched(Next(s, e)) && ConnHeld(Next(s, e))
  {}

  lemma {:induction false} ExecKeepsInv(db0: Db, events: seq<Event>)
    ensures Inv(db0, Exec(db0, events))
  {
    hide Next;
    if events != [] {
      ExecKeepsInv(db0, events[..|events| - 1]);
      NextKeepsInv(db0, Exec(db0, events[..|events| - 1]), events[|events| - 1]);
    }
  }

  /**
   * Every schedule is explained by running the answered calls one after
   * another, in log order, and the log has one entry for each process that has
   * answered and no other.
   */
  lemma SchedulesAreSerial(db0: Db, events: seq<Event>)
    ensures var s := Exec(db0, events);
      && s.db == Replay(db0, s.log)
      && (forall k :: 0 <= k < |s.log| ==> s.log[k].reply == Apply(Replay(db0, s.log[..k]), s.log[k].call).1)
      && Matched(s)
  {
    hide Exec;
    ExecKeepsInv(db0, events);
  }

  lemma NextGrowsLog(s: Sys, e: Event)
    ensures s.log <= Next(s, e).log
  {
    hide Statement, Apply, Rejection;
  }

  ghost function LogOf(db0: Db, events: seq<Event>): seq<Entry> { Exec(db0, events).log }

  lemma ExecGrowsLog(db0: Db, events: seq<Event>, e: Event)
    ensures LogOf(db0, events) <= LogOf(db0, events + [e])
  {
    hide Next;
    ExecOneMore(db0, events, e);
    NextGrowsLog(Exec(db0, events), e);
  }

  lemma ExecOneMore(db0: Db, events: seq<Event>, e: Event)
    ensures Exec(db0, events + [e]) == Next(Exec(db0, events), e)
  {
    hide Next;
    assert (events + [e])[..|events|] == events;
  }

  /** An answer is never withdrawn or reordered: a call that arrives later takes effect later. */
  lemma {:induction false} LogGrows(db0: Db, before: seq<Event>, after: seq<Event>)
    ensures LogOf(db0, before) <= LogOf(db0, before + after)
    decreases |after|
  {
    hide *;
    if after == [] {
      assert before + after == before;
    } else {
      var front, last := before + after[..|after| - 1], after[|after| - 1];
      LogGrows(db0, before, after[..|after| - 1]);
      assert before + after == front + [last];
      ExecGrowsLog(db0, front, last);
    }
  }

  // ---------- failures ----------

  /** A failed operation ends its transaction: nothing is committed or answered, and the connection is free again. */
  lemma FaultEnds(db0: Db, events: seq<Event>, id: nat)
    requires id in Exec(db0, events).procs && Exec(db0, events).procs[id].InTx?
    ensures var s, t := Exec(db0, events), Exec(db0, events + [Fault(id)]);
      && t.db == s.db && t.log == s.log && t.conn.None?
      && id in t.procs && t.procs[id] == Finished(s.procs[id].call, None)
      && forall other :: other in s.procs && other != id ==> other in t.procs && t.procs[other] == s.procs[other]
  {
    hide Exec;
    ExecOneMore(db0, events, Fault(id));
  }

  // ---------- progress ----------

  /** While a call is unanswered, some process can take a step. */
  lemma SomeoneCanRun(db0: Db, events: seq<Event>, id: nat) returns (runner: nat)
    requires id in Exec(db0, events).procs && !Exec(db0, events).procs[id].Finished?
    ensures Next(Exec(db0, events), Run(runner)) != Exec(db0, events)
  {
    ExecKeepsInv(db0, events);
    hide Exec, Apply, Finish, Rejection, Truthful, Replay;
    var s := Exec(db0, events);
    runner := if s.procs[id].Waiting? && s.conn.Some? then s.conn.value else id;
    RunChanges(s, runner);
  }

  lemma RunChanges(s: Sys, id: nat)
    requires id in s.procs && !s.procs[id].Finished? && (s.procs[id].Waiting? ==> s.conn.None?)
    ensures RunProc(s, id) != s
  {
    hide Statement, Apply, Rejection;
    var t := RunProc(s, id);
    assert t.procs[id] != s.procs[id] by {
      if s.procs[id].InTx? && t.procs[id].InTx? { assert Rank(t.procs[id].pc) < Rank(s.procs[id].pc); }
    }
  }

  /** t is s after the open transaction of id has answered with what its remaining statements add up to. */
  ghost predicate Ends(s: Sys, id: nat, t: Sys)
    requires id in s.procs && s.procs[id].InTx?
  {
    var p := s.procs[id];
    var (db, reply) := Finish(p.call, p.pc, p.work, s.db);
    t == Answer(s, id, db, None, reply)
  }

  lemma TransactionStep(s: Sys, id: nat)
    requires id in s.procs && s.procs[id].InTx?
    ensures var t := RunProc(s, id);
      id in t.procs &&
      if t.procs[id].InTx? then
        Rank(t.procs[id].pc) < Rank(s.procs[id].pc) && forall u :: Ends(t, id, u) ==> Ends(s, id, u)
      else Ends(s, id, t)
  {
    hide Statement, Apply, Rejection;
    var p, t := s.procs[id], RunProc(s, id);
    var done := Finished(p.call, Some(Finish(p.call, p.pc, p.work, s.db).1));
    if t.procs[id].InTx? { assert t.procs[id := done] == s.procs[id := done]; }
  }

  /**
   * Left to itself, an open transaction answers within Rank + 1 steps, six at
   * most, with the effect and reply its remaining statements add up to.
   */
  lemma {:induction false} TransactionEnds(s: Sys, db0: Db, events: seq<Event>, id: nat) returns (more: seq<Event>)
    requires s == Exec(db0, events) && id in s.procs && s.procs[id].InTx?
    ensures |more| <= Rank(s.procs[id].pc) + 1 <= 6 && forall e :: e in more ==> e == Run(id)
    ensures Ends(s, id, Exec(db0, events + more))
    decreases Rank(s.procs[id].pc)
  {
    hide Exec, RunProc, Ends;
    var t := RunProc(s, id);
    ExecOneMore(db0, events, Run(id));
    TransactionStep(s, id);
    more := [Run(id)];
    if t.procs[id].InTx? {
      var rest := TransactionEnds(t, db0, events + more, id);
      assert events + (more + rest) == events + more + rest;
      more := more + rest;
    }
  }

  // ---------- every serial log is that of a schedule ----------

  lemma {:induction false} AboveAll(ids: set<nat>) returns (n: nat)
    ensures forall i :: i in ids ==> i < n
  {
    if ids == {} {
      n := 0;
    } else {
      var i :| i in ids;
      var m := AboveAll(ids - {i});
      n := if m <= i then i + 1 else m;
      assert forall j :: j in ids ==> j == i || j in ids - {i};
    }
  }

  lemma ArrivesAndRuns(s: Sys, id: nat, call: Call)
    requires id !in s.procs
    ensures var t := Next(Next(s, Arrive(id, call)), Run(id));
      if Rejection(call).Some? then
        t.conn == s.conn && t.db == s.db && t.log == s.log + [Entry(call, Failed(Rejection(call).value))]
      else t == s.(procs := s.procs[id := Waiting(call)])
  {
    hide Rejection, Statement, Apply;
  }

  lemma TakesConnection(s: Sys, id: nat)
    requires id in s.procs && s.procs[id].Waiting? && s.conn.None?
    ensures var t, call := Next(s, Run(id)), s.procs[id].call;
      if Transactional(call) then t == s.(conn := Some(id), procs := s.procs[id := InTx(call, Begun, s.db)])
      else
        && t.conn.None? && t.db == Apply(s.db, call).0
        && t.log == s.log + [Entry(call, Apply(s.db, call).1)]
  {
    hide Rejection, Statement, Apply;
  }

  /** s answers the call next, leaving the connection free. */
  ghost predicate AnswersNext(s: Sys, t: Sys, call: Call) {
    t.conn.None? && t.db == Apply(s.db, call).0 && t.log == s.log + [Entry(call, Apply(s.db, call).1)]
  }

  lemma WaitingRuns(db0: Db, events: seq<Event>, id: nat) returns (more: seq<Event>)
    requires var s := Exec(db0, events);
      s.conn.None? && id in s.procs && s.procs[id].Waiting? && Rejection(s.procs[id].call).None?
    ensures var s := Exec(db0, events); AnswersNext(s, Exec(db0, events + more), s.procs[id].call)
  {
    hide Exec, Next, RunProc, Statement, Finish, Apply, Rejection;
    var s := Exec(db0, events);
    more := [Run(id)];
    ExecOneMore(db0, events, Run(id));
    TakesConnection(s, id);
    if Transactional(s.procs[id].call) {
      var rest := TransactionEnds(Exec(db0, events + more), db0, events + more, id);
      assert events + (more + rest) == events + more + rest;
      more := more + rest;
      StatementsMakeCall(s.db, s.procs[id].call);
    }
  }

  /** With the connection free, a call can arrive and run to its answer. */
  lemma CallRuns(db0: Db, events: seq<Event>, call: Call) returns (more: seq<Event>)
    requires Exec(db0, events).conn.None?
    ensures AnswersNext(Exec(db0, events), Exec(db0, events + more), call)
  {
    var s := Exec(db0, events);
    var id := AboveAll(s.procs.Keys);
    assert id !in s.procs;
    more := [Arrive(id, call), Run(id)];
    ExecOneMore(db0, events, Arrive(id, call));
    ExecOneMore(db0, events + [Arrive(id, call)], Run(id));
    assert events + [Arrive(id, call)] + [Run(id)] == events + more;
    hide Exec, Next, RunProc, Statement, Finish, Apply, Rejection;
    ArrivesAndRuns(s, id, call);
    if Rejection(call).Some? {
      RejectedAtOnce(s.db, call);
    } else {
      var rest := WaitingRuns(db0, events + more, id);
      assert events + (more + rest) == events + more + rest;
      more := more + rest;
    }
  }

  lemma RejectedAtOnce(db: Db, call: Call)
    requires Rejection(call).Some?
    ensures Apply(db, call) == (db, Failed(Rejection(call).value))
  {}

  lemma TruthfulFront(db0: Db, log: seq<Entry>)
    requires log != [] && Truthful(db0, log)
    ensures var front, last := log[..|log| - 1], log[|log| - 1];
      Truthful(db0, front) && log == front + [Entry(last.call, Apply(Replay(db0, front), last.call).1)]
  {
    hide Apply, Replay;
    var front, last := log[..|log| - 1], log[|log| - 1];
    assert last == Entry(last.call, Apply(Replay(db0, front), last.call).1);
    forall k | 0 <= k < |front| ensures front[k].reply == Apply(Replay(db0, front[..k]), front[k].call).1 {
      assert front[..k] == log[..k];
    }
  }

  lemma ExecReplays(db0: Db, events: seq<Event>)
    ensures Exec(db0, events).db == Replay(db0, Exec(db0, events).log) && Truthful(db0, Exec(db0, events).log)
  {
    SchedulesAreSerial(db0, events);
  }

  /** The converse of SchedulesAreSerial: calls answered one after another are a schedule. */
  lemma {:induction false} EveryLogHappens(db0: Db, log: seq<Entry>) returns (events: seq<Event>)
    requires Truthful(db0, log)
    ensures Exec(db0, events).log == log && Exec(db0, events).conn.None?
  {
    if log == [] {
      events := [];
    } else {
      hide Exec, Apply, Replay, Rejection, Truthful;
      TruthfulFront(db0, log);
      var before := EveryLogHappens(db0, log[..|log| - 1]);
      ExecReplays(db0, before);
      var more := CallRuns(db0, before, log[|log| - 1].call);
      events := before + more;
    }
  }
}
