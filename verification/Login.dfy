/** Logins behind the limiter (internal/auth/session.go:119-160), and which of them count for each other. */
module Login {
  import opened Wrappers
  import opened Database
  import opened Store
  import opened Limiter
  import opened Blocks

  function LimiterKey(ip: string, username: string): string { ip + "|" + Fold(username) }

  // ---------- logins told by address and name ----------

  /** What happens in a login from an address: it is looked at, and if let in it fails or succeeds. */
  datatype LoginEvent =
    | Asks(ip: string, username: string, now: int)
    | Denied(ip: string, username: string, now: int)
    | Admitted(ip: string, username: string, now: int)

  /** The limiter call it makes, under the given key. */
  function Under(e: LoginEvent, key: string): Event {
    match e
    case Asks(_, _, now) => Check(key, now)
    case Denied(_, _, now) => Failure(key, now)
    case Admitted(_, _, now) => Success(key, now)
  }

  /** The limiter's run. */
  function Keyed(run: seq<LoginEvent>): (r: seq<Event>)
    ensures |r| == |run|
  {
    seq(|run|, i requires 0 <= i < |run| => Under(run[i], LimiterKey(run[i].ip, run[i].username)))
  }

  /** The login comes from this address and is for this account name, in any letter case. */
  predicate Concerns(e: LoginEvent, ip: string, username: string) { e.ip == ip && SameName(e.username, username) }

  /** What happens in the logins from one address for one name, all others left out. */
  function Own(run: seq<LoginEvent>, ip: string, username: string): seq<Event> {
    if run == [] then []
    else
      var front, e := run[..|run| - 1], run[|run| - 1];
      Own(front, ip, username) + if Concerns(e, ip, username) then [Under(e, "")] else []
  }

  const FIFTEEN_MINUTES := 15 * 60 * 1_000_000_000

  /** How long a login must wait, told by the logins from its address for its name alone. */
  ghost function OwnWait(run: seq<LoginEvent>, ip: string, username: string, now: int): int {
    var own := Own(run, ip, username);
    var o := Opener(own, "");
    if o.Some? && FailuresFrom(own, "", o.value) >= 5 && now < own[o.value].now + FIFTEEN_MINUTES
    then own[o.value].now + FIFTEEN_MINUTES - now else 0
  }

  /** No address contains the bar that separates it from the name. */
  ghost predicate NoBars(run: seq<LoginEvent>, ip: string) {
    '|' !in ip && forall e :: e in run ==> '|' !in e.ip
  }

  /** The clock does not run backwards, up to this reading. */
  ghost predicate ClockUpTo(run: seq<LoginEvent>, now: int) {
    && (forall i, j :: 0 <= i < j < |run| ==> run[i].now <= run[j].now)
    && (forall e :: e in run ==> e.now <= now)
  }

  /** Two logins count for each other exactly when they come from one address and are for one name. */
  lemma KeysShared(a: string, m: string, b: string, n: string)
    requires '|' !in a && '|' !in b
    ensures LimiterKey(a, m) == LimiterKey(b, n) <==> a == b && SameName(m, n)
  {
    FoldSame(m, n);
    hide Fold, SameName;
    var s, t := LimiterKey(a, m), LimiterKey(b, n);
    assert s[..|a|] == a && s[|a|] == '|' && s[|a| + 1..] == Fold(m);
    assert t[..|b|] == b && t[|b|] == '|' && t[|b| + 1..] == Fold(n);
  }

  /** The window of a key is that of its own logins. */
  lemma {:induction false} OwnWindow(run: seq<LoginEvent>, ip: string, username: string)
    requires NoBars(run, ip)
    ensures Window(Keyed(run), LimiterKey(ip, username)) == Window(Own(run, ip, username), "")
  {
    hide Window, NextWindow, LimiterKey, Concerns, SameName;
    if run == [] {
      assert Keyed(run) == [];
      NoWindow(LimiterKey(ip, username));
      NoWindow("");
    } else {
      var front, e := run[..|run| - 1], run[|run| - 1];
      var key := LimiterKey(ip, username);
      assert e in run && Keyed(run)[..|run| - 1] == Keyed(front);
      assert Keyed(run)[|run| - 1] == Under(e, LimiterKey(e.ip, e.username));
      OwnWindow(front, ip, username);
      WindowStep(Keyed(run), key);
      KeyedConcerns(e, ip, username);
      if Concerns(e, ip, username) {
        var own := Own(run, ip, username);
        assert own[..|own| - 1] == Own(front, ip, username) && own[|own| - 1] == Under(e, "");
        WindowStep(own, "");
      } else {
        assert Own(run, ip, username) == Own(front, ip, username);
      }
      WindowsAlike(Window(Keyed(front), key), e, LimiterKey(e.ip, e.username), key);
    }
  }

  lemma NoWindow(key: string)
    ensures Window([], key).None?
  {}

  lemma KeyedConcerns(e: LoginEvent, ip: string, username: string)
    requires '|' !in ip && '|' !in e.ip
    ensures LimiterKey(e.ip, e.username) == LimiterKey(ip, username) <==> Concerns(e, ip, username)
  {
    KeysShared(e.ip, e.username, ip, username);
  }

  lemma WindowsAlike(w: Option<Entry>, e: LoginEvent, k: string, key: string)
    ensures NextWindow(w, Under(e, k), key) == if k == key then NextWindow(w, Under(e, ""), "") else w
  {}

  /**
   * However logins interleave, how long one must wait is told by the logins
   * from its address for its name, in any letter case: those from elsewhere
   * and for other names do not matter.
   */
  lemma WaitIsOwn(run: seq<LoginEvent>, ip: string, username: string, now: int)
    requires NoBars(run, ip) && ClockUpTo(run, now)
    ensures Wait(Exec(Keyed(run)).entries, LimiterKey(ip, username), now) == OwnWait(run, ip, username, now)
  {
    hide LimiterKey, Concerns, Exec, Wait, Opener, FailuresFrom;
    assert forall i :: 0 <= i < |run| ==> run[i] in run;
    OwnWindow(run, ip, username);
    RefusedIff(Keyed(run), LimiterKey(ip, username), now);
  }

  /** One more login event changes the wait only of logins from its address for its name. */
  lemma OthersDoNotMatter(run: seq<LoginEvent>, e: LoginEvent, ip: string, username: string, now: int)
    requires e.ip != ip || !SameName(e.username, username)
    ensures OwnWait(run + [e], ip, username, now) == OwnWait(run, ip, username, now)
  {
    assert (run + [e])[..|run|] == run;
    assert Own(run + [e], ip, username) == Own(run, ip, username);
  }

  /** Letter case does not matter. */
  lemma {:induction false} CaseDoesNotMatter(run: seq<LoginEvent>, ip: string, m: string, n: string)
    requires SameName(m, n)
    ensures Own(run, ip, m) == Own(run, ip, n)
  {
    if run != [] {
      CaseDoesNotMatter(run[..|run| - 1], ip, m, n);
      var e := run[|run| - 1];
      FoldSame(m, n);
      FoldSame(e.username, m);
      FoldSame(e.username, n);
    }
  }

  // ---------- the login handler ----------

  /** The limiter entries after a login that gets through: one Check, then one Failure or Success. */
  function AfterLogin(m: Entries, key: string, now: int, later: int, success: bool): Entries {
    var s := Step(State(m, multiset{}), Check(key, now));
    Step(s, if success then Success(key, later) else Failure(key, later)).entries
  }

  lemma AfterLoginIs(m: Entries, key: string, now: int, later: int)
    ensures AfterLogin(m, key, now, later, false) == Counted(Evicted(Checked(m, key, now), later), key, later)
    ensures AfterLogin(m, key, now, later, true) == Checked(m, key, now) - {key}
    ensures Wait(m, key, now) > 0 ==> Checked(m, key, now) == m
    ensures Wait(m, key, now) >= 0
  {}

  lemma NewSessionReplies(db: Db, call: Call)
    requires call.CreateSession?
    ensures Apply(db, call).1.Done? || Apply(db, call).1.Failed?
  {}

  /** What a login answered with this status adds to the run. */
  function Events(ip: string, username: string, now: int, later: int, status: nat): seq<LoginEvent> {
    [Asks(ip, username, now)]
    + if status == 429 then [] else if status == 401 then [Denied(ip, username, later)]
      else [Admitted(ip, username, later)]
  }

  class Session {
    const store: UserStore
    const limiter: LoginLimiter
    /** The logins so far. */
    ghost var run: seq<LoginEvent>

    ghost predicate Kept()
      reads this, limiter
    {
      limiter.entries == Exec(Keyed(run)).entries
    }

    constructor (store: UserStore, limiter: LoginLimiter)
      requires limiter.entries == map[]
      ensures this.store == store && this.limiter == limiter && run == [] && Kept()
    {
      this.store, this.limiter, run := store, limiter, [];
    }

    /**
     * A login is refused exactly when those from its address for its name say
     * so, and then the right password does not help it. One that gets through
     * is the limiter events Check and then Failure or Success, and only a
     * success opens a session. user is the account that authenticated, also
     * when its session could not be stored.
     */
    method Login(ip: string, username: string, password: string, now: int, later: int,
                 tokenHash: string, expiresAt: int)
      returns (status: nat, user: Option<User>)
      requires Valid(store.db) && Kept()
      modifies this, store, limiter
      ensures Kept() && run == old(run) + Events(ip, username, now, later, status)
      ensures status == 429 <==> Wait(old(limiter.entries), LimiterKey(ip, username), now) > 0
      ensures NoBars(old(run), ip) && ClockUpTo(old(run), now) ==>
        (status == 429 <==> OwnWait(old(run), ip, username, now) > 0)
      ensures status == 429 ==> store.db == old(store.db) && limiter.entries == old(limiter.entries)
      ensures status == 401 ==>
        && store.db == old(store.db)
        && limiter.entries == AfterLogin(old(limiter.entries), LimiterKey(ip, username), now, later, false)
      ensures status == 401 ==>
        forall id :: id in store.db.users && Fold(store.db.users[id].username) == Fold(username) ==>
          !(store.db.users[id].active && Matches(store.db.users[id].hash, password))
      ensures status in {200, 500} ==>
        limiter.entries == AfterLogin(old(limiter.entries), LimiterKey(ip, username), now, later, true)
      ensures user.Some? <==> status in {200, 500}
      ensures user.Some? ==> user.value.id in old(store.db).users
      ensures user.Some? ==>
        var row := old(store.db).users[user.value.id];
        row.active && Fold(row.username) == Fold(username) && Matches(row.hash, password)
      ensures user.Some? ==>
        var (db, reply) := Apply(old(store.db), CreateSession(tokenHash, user.value.id, expiresAt));
        store.db == db && (status == 200 <==> reply.Done?)
      ensures status in {200, 401, 429, 500}
    {
      hide Apply, Authenticated, Valid, Fold, Matches, AfterLogin, Step, Checked, Wait, Counted, Evicted;
      hide Exec, OwnWait, NoBars, ClockUpTo, LimiterKey, Keyed;
      var key := LimiterKey(ip, username);
      AfterLoginIs(limiter.entries, key, now, later);
      if NoBars(run, ip) && ClockUpTo(run, now) { WaitIsOwn(run, ip, username, now); }
      RunGrows(run, ip, username, now, later);
      var wait := limiter.Blocked(key, now);
      if wait > 0 {
        run := run + [Asks(ip, username, now)];
        return 429, None;
      }
      var u := store.Authenticate(username, password);
      if u.None? {
        limiter.Fail(key, later);
        run := run + [Asks(ip, username, now), Denied(ip, username, later)];
        return 401, None;
      }
      limiter.Reset(key);
      run := run + [Asks(ip, username, now), Admitted(ip, username, later)];
      NewSessionReplies(store.db, CreateSession(tokenHash, u.value.id, expiresAt));
      var r := store.NewSession(tokenHash, u.value.id, expiresAt);
      return if r.Failed? then 500 else 200, u;
    }
  }

  /** The limiter's entries after the events of one more login. */
  lemma RunGrows(run: seq<LoginEvent>, ip: string, username: string, now: int, later: int)
    ensures var m, key := Exec(Keyed(run)).entries, LimiterKey(ip, username);
      var asked := Checked(m, key, now);
      && Exec(Keyed(run + [Asks(ip, username, now)])).entries == asked
      && Exec(Keyed(run + [Asks(ip, username, now), Denied(ip, username, later)])).entries
         == Counted(Evicted(asked, later), key, later)
      && Exec(Keyed(run + [Asks(ip, username, now), Admitted(ip, username, later)])).entries == asked - {key}
  {
    hide LimiterKey, Keyed, Exec, Step, Checked, Counted, Evicted;
    KeyedGrows(run, Asks(ip, username, now));
    var asked := run + [Asks(ip, username, now)];
    KeyedGrows(asked, Denied(ip, username, later));
    KeyedGrows(asked, Admitted(ip, username, later));
    StepsAre(Exec(Keyed(run)), LimiterKey(ip, username), now);
    StepsAre(Exec(Keyed(asked)), LimiterKey(ip, username), later);
    assert asked + [Denied(ip, username, later)] == run + [Asks(ip, username, now), Denied(ip, username, later)];
    assert asked + [Admitted(ip, username, later)] == run + [Asks(ip, username, now), Admitted(ip, username, later)];
  }

  lemma StepsAre(s: State, key: string, now: int)
    ensures Step(s, Check(key, now)).entries == Checked(s.entries, key, now)
    ensures Step(s, Failure(key, now)).entries == Counted(Evicted(s.entries, now), key, now)
    ensures Step(s, Success(key, now)).entries == s.entries - {key}
  {}

  lemma KeyedGrows(run: seq<LoginEvent>, e: LoginEvent)
    ensures Exec(Keyed(run + [e])) == Step(Exec(Keyed(run)), Under(e, LimiterKey(e.ip, e.username)))
  {
    hide Step, LimiterKey;
    assert Keyed(run + [e])[..|run|] == Keyed(run);
  }
}
