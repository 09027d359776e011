/**
 * The login rate limiter (internal/auth/session.go:119-263): the mutex-guarded
 * map, its calls as atomic events of a run, and what holds over whole runs.
 */
module Limiter {
  const MAX_LOGIN_FAILS: int := 5
  /** 15 minutes, in nanoseconds. */
  const LOGIN_WINDOW: int := 900_000_000_000
  const EVICTION_SIZE: int := 10000

  datatype Entry = Entry(fails: int, first: int)
  type Entries = map<string, Entry>

  /** How long a login under this key must still wait; 0 lets it through. */
  function Wait(m: Entries, key: string, now: int): int {
    if key in m && m[key].fails >= MAX_LOGIN_FAILS && now - m[key].first < LOGIN_WINDOW
    then LOGIN_WINDOW - (now - m[key].first) else 0
  }

  /** An expired block is dropped when it is looked at. */
  function Checked(m: Entries, key: string, now: int): Entries {
    if key in m && m[key].fails >= MAX_LOGIN_FAILS && Wait(m, key, now) == 0 then m - {key} else m
  }

  predicate Expired(e: Entry, now: int) { now - e.first > LOGIN_WINDOW }

  function Evicted(m: Entries, now: int): Entries {
    if |m| > EVICTION_SIZE then map k | k in m && !Expired(m[k], now) :: m[k] else m
  }

  /** A failure counted without looking for stale entries of other keys. */
  function Counted(m: Entries, key: string, now: int): Entries {
    if key !in m || Expired(m[key], now) then m[key := Entry(1, now)]
    else m[key := Entry(m[key].fails + 1, m[key].first)]
  }

  class LoginLimiter {
    var entries: Entries

    constructor ()
      ensures entries == map[]
    {
      entries := map[];
    }

    method Blocked(key: string, now: int) returns (wait: int)
      modifies this
      ensures wait == Wait(old(entries), key, now)
      ensures entries == Checked(old(entries), key, now)
    {
      if key !in entries || entries[key].fails < MAX_LOGIN_FAILS { return 0; }
      var left := LOGIN_WINDOW - (now - entries[key].first);
      if left > 0 { return left; }
      entries := entries - {key};
      return 0;
    }

    method Fail(key: string, now: int)
      modifies this
      ensures entries == Counted(Evicted(old(entries), now), key, now)
    {
      if |entries| > EVICTION_SIZE {
        var todo := entries.Keys;
        while todo != {}
          invariant todo <= old(entries).Keys
          invariant entries
            == map k | k in old(entries) && (k in todo || !Expired(old(entries)[k], now)) :: old(entries)[k]
        {
          var k :| k in todo;
          if now - entries[k].first > LOGIN_WINDOW {
            entries := entries - {k};
          }
          todo := todo - {k};
        }
      }
      assert entries == Evicted(old(entries), now);
      if key !in entries || now - entries[key].first > LOGIN_WINDOW {
        entries := entries[key := Entry(1, now)];
        return;
      }
      entries := entries[key := entries[key].(fails := entries[key].fails + 1)];
    }

    method Reset(key: string)
      modifies this
      ensures entries == old(entries) - {key}
    {
      entries := entries - {key};
    }
  }

  // ---------- runs ----------

  /**
   * Every login first checks its key. One that is let through then reports
   * either a failed authentication or a success; in between, other logins run.
   */
  datatype Event = Check(key: string, now: int) | Failure(key: string, now: int) | Success(key: string, now: int)

  /** pending counts the logins of each key that were let through and have not reported yet. */
  datatype State = State(entries: Entries, pending: multiset<string>)

  function Step(s: State, e: Event): State {
    match e
    case Check(key, now) =>
      State(Checked(s.entries, key, now),
            if Wait(s.entries, key, now) == 0 then s.pending + multiset{key} else s.pending)
    case Failure(key, now) => State(Counted(Evicted(s.entries, now), key, now), s.pending - multiset{key})
    case Success(key, _) => State(s.entries - {key}, s.pending - multiset{key})
  }

  function Exec(run: seq<Event>): State {
    if run == [] then State(map[], multiset{}) else Step(Exec(run[..|run| - 1]), run[|run| - 1])
  }

  /** Only a login that was let through reports. */
  ghost predicate LetIn(run: seq<Event>, i: nat)
    requires i < |run|
  {
    run[i].Check? || run[i].key in Exec(run[..i]).pending
  }

  ghost predicate Monotone(run: seq<Event>) {
    forall i, j :: 0 <= i < j < |run| ==> run[i].now <= run[j].now
  }

  /** Only logins that were let through report, and the clock does not run backwards. */
  ghost predicate Legal(run: seq<Event>) {
    Monotone(run) && forall i {:trigger LetIn(run, i)} :: 0 <= i < |run| ==> LetIn(run, i)
  }

  ghost predicate PendingWithin(run: seq<Event>, i: nat, key: string, k: nat)
    requires i <= |run|
  {
    Exec(run[..i]).pending[key] <= k
  }

  /** At no time are more than k logins of this key in progress. */
  ghost predicate AtMostPending(run: seq<Event>, key: string, k: nat) {
    forall i {:trigger PendingWithin(run, i, key, k)} :: 0 <= i <= |run| ==> PendingWithin(run, i, key, k)
  }

  lemma Shorter(run: seq<Event>, key: string, k: nat)
    requires run != [] && Legal(run) && AtMostPending(run, key, k)
    ensures var front := run[..|run| - 1];
      Legal(front) && AtMostPending(front, key, k) && LetIn(run, |run| - 1)
      && Exec(front).pending[key] <= k && Exec(run).pending[key] <= k
  {
    hide Step;
    var front := run[..|run| - 1];
    assert PendingWithin(run, |run| - 1, key, k) && PendingWithin(run, |run|, key, k);
    assert run[..|run|] == run;
    forall i | 0 <= i < |front| ensures LetIn(front, i) {
      assert LetIn(run, i) && front[..i] == run[..i];
    }
    forall i | 0 <= i <= |front| ensures PendingWithin(front, i, key, k) {
      assert PendingWithin(run, i, key, k) && front[..i] == run[..i];
    }
  }

  // ---------- counts and rates ----------

  /** The most failures one entry can hold when at most k logins of its key run at once. */
  function MaxCount(k: nat): int { MAX_LOGIN_FAILS - 1 + k }

  /** With at most k concurrent logins a key's count stays below MAX_LOGIN_FAILS + k. */
  lemma {:induction false} CountBounded(run: seq<Event>, key: string, k: nat)
    requires Legal(run) && AtMostPending(run, key, k)
    ensures var s := Exec(run);
      key in s.entries ==> s.entries[key].fails >= 1 && s.entries[key].fails + s.pending[key] <= MaxCount(k)
  {
    if run != [] {
      hide Step;
      Shorter(run, key, k);
      CountBounded(run[..|run| - 1], key, k);
      CountStep(Exec(run[..|run| - 1]), run[|run| - 1], key, k);
    }
  }

  lemma CountStep(s: State, e: Event, key: string, k: nat)
    requires key in s.entries ==> s.entries[key].fails >= 1 && s.entries[key].fails + s.pending[key] <= MaxCount(k)
    requires e.Check? || e.key in s.pending
    requires s.pending[key] <= k && Step(s, e).pending[key] <= k
    ensures var t := Step(s, e);
      key in t.entries ==> t.entries[key].fails >= 1 && t.entries[key].fails + t.pending[key] <= MaxCount(k)
  {}

  /** The failed authentications of a key within [from, from + LOGIN_WINDOW). */
  function FailuresIn(run: seq<Event>, key: string, from: int): nat {
    if run == [] then 0
    else
      var e := run[|run| - 1];
      FailuresIn(run[..|run| - 1], key, from)
      + if e.Failure? && e.key == key && from <= e.now < from + LOGIN_WINDOW then 1 else 0
  }

  /** What the entry of a key says about the failures counted so far in the interval from `from`. */
  ghost predicate RateInv(m: Entries, key: string, from: int, count: nat, clock: int, most: int) {
    && (count > 0 ==> clock >= from)
    && (if key !in m then count <= most - 1 || (clock >= from + LOGIN_WINDOW && count <= 2 * most - 1)
        else if m[key].first < from then count <= m[key].fails - 1
        else count <= most - 1 + m[key].fails || (m[key].first >= from + LOGIN_WINDOW && count <= 2 * most - 1))
  }

  lemma RateStep(s: State, e: Event, key: string, from: int, count: nat, clock: int, most: int)
    requires RateInv(s.entries, key, from, count, clock, most) && clock <= e.now
    requires most >= MAX_LOGIN_FAILS
    requires key in s.entries ==> 1 <= s.entries[key].fails <= most && s.entries[key].first <= clock
    requires !(e.Success? && e.key == key)
    ensures
      var hit := if e.Failure? && e.key == key && from <= e.now < from + LOGIN_WINDOW then 1 else 0;
      RateInv(Step(s, e).entries, key, from, count + hit, e.now, most)
    ensures key in Step(s, e).entries ==> Step(s, e).entries[key].first <= e.now
  {}

  lemma {:induction false} RateHolds(run: seq<Event>, key: string, k: nat, from: int)
    requires Legal(run) && AtMostPending(run, key, k) && k >= 1
    requires forall e :: e in run ==> !(e.Success? && e.key == key)
    ensures var clock := if run == [] then from - 1 else run[|run| - 1].now;
      && RateInv(Exec(run).entries, key, from, FailuresIn(run, key, from), clock, MaxCount(k))
      && (key in Exec(run).entries ==> Exec(run).entries[key].first <= clock)
  {
    if run != [] {
      Shorter(run, key, k);
      var front, e := run[..|run| - 1], run[|run| - 1];
      RateHolds(front, key, k, from);
      CountBounded(front, key, k);
      assert e in run;
      var clock := if front == [] then from - 1 else front[|front| - 1].now;
      if front == [] {
        FirstStep(e, key, from, MaxCount(k));
      } else {
        RateStep(Exec(front), e, key, from, FailuresIn(front, key, from), clock, MaxCount(k));
      }
    }
  }

  lemma FirstStep(e: Event, key: string, from: int, most: int)
    requires most >= MAX_LOGIN_FAILS
    ensures
      var hit := if e.Failure? && e.key == key && from <= e.now < from + LOGIN_WINDOW then 1 else 0;
      RateInv(Step(State(map[], multiset{}), e).entries, key, from, hit, e.now, most)
    ensures var m := Step(State(map[], multiset{}), e).entries; key in m ==> m[key].first <= e.now
  {}

  /**
   * Without a success, any half-open interval as long as the window holds at
   * most 2 * (MAX_LOGIN_FAILS - 1 + k) - 1 failures of a key with at most k
   * logins at once: 9 when the logins of the key come one after another.
   */
  lemma FailureRate(run: seq<Event>, key: string, k: nat, from: int)
    requires Legal(run) && AtMostPending(run, key, k) && k >= 1
    requires forall e :: e in run ==> !(e.Success? && e.key == key)
    ensures FailuresIn(run, key, from) <= 2 * (MAX_LOGIN_FAILS - 1 + k) - 1
    ensures k == 1 ==> FailuresIn(run, key, from) <= 9
  {
    RateHolds(run, key, k, from);
    CountBounded(run, key, k);
  }

  // ---------- the bound is reached ----------

  lemma OneMore(run: seq<Event>, e: Event, key: string, from: int)
    ensures Exec(run + [e]) == Step(Exec(run), e)
    ensures FailuresIn(run + [e], key, from) == FailuresIn(run, key, from)
      + if e.Failure? && e.key == key && from <= e.now < from + LOGIN_WINDOW then 1 else 0
  {
    hide Step;
    var next := run + [e];
    assert next[..|next| - 1] == run;
  }

  lemma Longer(run: seq<Event>, e: Event, key: string, k: nat, from: int)
    requires Legal(run) && AtMostPending(run, key, k)
    requires run != [] ==> run[|run| - 1].now <= e.now
    requires !e.Check? ==> e.key in Exec(run).pending
    requires Step(Exec(run), e).pending[key] <= k
    ensures Legal(run + [e]) && AtMostPending(run + [e], key, k)
    ensures Exec(run + [e]) == Step(Exec(run), e)
    ensures FailuresIn(run + [e], key, from) == FailuresIn(run, key, from)
      + if e.Failure? && e.key == key && from <= e.now < from + LOGIN_WINDOW then 1 else 0
  {
    hide Step, Exec, FailuresIn;
    var next := run + [e];
    assert next[..|next|] == next;
    OneMore(run, e, key, from);
    forall i | 0 <= i < |next| ensures LetIn(next, i) {
      if i < |run| { assert LetIn(run, i) && next[..i] == run[..i]; }
    }
    forall i | 0 <= i <= |next| ensures PendingWithin(next, i, key, k) {
      if i <= |run| { assert PendingWithin(run, i, key, k) && next[..i] == run[..i]; }
    }
  }

  /** A run of failing logins of one key, at most k at once, that ends in this state, by time t. */
  ghost predicate Leads(run: seq<Event>, key: string, k: nat, t: int, m: Entries, pending: nat) {
    && Legal(run) && AtMostPending(run, key, k)
    && (run != [] ==> run[|run| - 1].now <= t)
    && (forall e :: e in run ==> !e.Success?)
    && Exec(run) == State(m, multiset{}[key := pending])
  }

  /** One more login of the key is let through. */
  lemma Enter(run: seq<Event>, key: string, k: nat, t: int, m: Entries, p: nat, from: int) returns (next: seq<Event>)
    requires Leads(run, key, k, t, m, p) && p < k && Wait(m, key, t) == 0
    ensures Leads(next, key, k, t, Checked(m, key, t), p + 1) && next == run + [Check(key, t)]
    ensures FailuresIn(next, key, from) == FailuresIn(run, key, from)
  {
    assert multiset{}[key := p] + multiset{key} == multiset{}[key := p + 1];
    Longer(run, Check(key, t), key, k, from);
    next := run + [Check(key, t)];
  }

  /** One login of the key in progress fails. */
  lemma Leave(run: seq<Event>, key: string, k: nat, t: int, m: Entries, p: nat, from: int) returns (next: seq<Event>)
    requires Leads(run, key, k, t, m, p) && 0 < p <= k && m.Keys <= {key}
    ensures Leads(next, key, k, t, Counted(m, key, t), p - 1) && next == run + [Failure(key, t)]
    ensures FailuresIn(next, key, from) == FailuresIn(run, key, from) + if from <= t < from + LOGIN_WINDOW then 1 else 0
  {
    assert multiset{}[key := p] - multiset{key} == multiset{}[key := p - 1];
    assert Evicted(m, t) == m by { AtMostOne(m, key); }
    Longer(run, Failure(key, t), key, k, from);
    next := run + [Failure(key, t)];
  }

  lemma AtMostOne(m: Entries, key: string)
    requires m.Keys <= {key}
    ensures |m| <= 1
  {
    assert m.Keys == {} || m.Keys == {key};
  }

  /** j logins of the key are let through together. */
  lemma {:induction false} EnterAll(run: seq<Event>, key: string, k: nat, t: int, e: Entry, j: nat, from: int)
    returns (next: seq<Event>)
    requires Leads(run, key, k, t, map[key := e], 0) && j <= k && e.fails < MAX_LOGIN_FAILS
    ensures Leads(next, key, k, t, map[key := e], j)
    ensures FailuresIn(next, key, from) == FailuresIn(run, key, from)
  {
    hide Leads, FailuresIn;
    next := run;
    if j > 0 {
      next := EnterAll(run, key, k, t, e, j - 1, from);
      next := Enter(next, key, k, t, map[key := e], j - 1, from);
    }
  }

  /** All j logins in progress fail, one after another. */
  lemma {:induction false} LeaveAll(run: seq<Event>, key: string, k: nat, t: int, e: Entry, j: nat, from: int)
    returns (next: seq<Event>)
    requires Leads(run, key, k, t, map[key := e], j) && 0 < j <= k && !Expired(e, t)
    ensures Leads(next, key, k, t, map[key := Entry(e.fails + j, e.first)], 0)
    ensures next != [] && next[|next| - 1] == Failure(key, t)
    ensures FailuresIn(next, key, from) == FailuresIn(run, key, from) + if from <= t < from + LOGIN_WINDOW then j else 0
    decreases j
  {
    hide Leads, FailuresIn;
    next := Leave(run, key, k, t, map[key := e], j, from);
    var counted := Entry(e.fails + 1, e.first);
    assert Counted(map[key := e], key, t) == map[key := counted];
    if j > 1 { next := LeaveAll(next, key, k, t, counted, j - 1, from); }
  }

  lemma OpensAnew(m: Entries, key: string, t: int)
    requires m.Keys <= {key}
    requires key in m ==>
      Expired(m[key], t) || (m[key].fails >= MAX_LOGIN_FAILS && t - m[key].first >= LOGIN_WINDOW)
    ensures Wait(m, key, t) == 0 && Checked(m, key, t).Keys <= {key}
    ensures Counted(Checked(m, key, t), key, t) == map[key := Entry(1, t)]
  {}

  /** The failure that starts a new entry. */
  lemma Open(run: seq<Event>, key: string, k: nat, t: int, m: Entries, from: int) returns (next: seq<Event>)
    requires Leads(run, key, k, t, m, 0) && k >= 1 && m.Keys <= {key}
    requires key in m ==>
      Expired(m[key], t) || (m[key].fails >= MAX_LOGIN_FAILS && t - m[key].first >= LOGIN_WINDOW)
    ensures Leads(next, key, k, t, map[key := Entry(1, t)], 0)
    ensures FailuresIn(next, key, from) == FailuresIn(run, key, from) + if from <= t < from + LOGIN_WINDOW then 1 else 0
  {
    hide Leads, FailuresIn, Checked, Wait, Counted;
    OpensAnew(m, key, t);
    next := Enter(run, key, k, t, m, 0, from);
    next := Leave(next, key, k, t, Checked(m, key, t), 1, from);
  }

  /** n more failures, one after another, on an entry that does not block by then. */
  lemma {:induction false} FailInTurn(run: seq<Event>, key: string, k: nat, t: int, e: Entry, n: nat, from: int)
    returns (next: seq<Event>)
    requires Leads(run, key, k, t, map[key := e], 0) && k >= 1 && !Expired(e, t) && e.fails + n < MAX_LOGIN_FAILS
    ensures Leads(next, key, k, t, map[key := Entry(e.fails + n, e.first)], 0)
    ensures FailuresIn(next, key, from) == FailuresIn(run, key, from) + if from <= t < from + LOGIN_WINDOW then n else 0
    ensures n > 0 ==> next != [] && next[|next| - 1] == Failure(key, t)
  {
    hide Leads, FailuresIn, Counted;
    next := run;
    if n > 0 {
      next := FailInTurn(run, key, k, t, e, n - 1, from);
      next := EnterAll(next, key, k, t, Entry(e.fails + n - 1, e.first), 1, from);
      next := LeaveAll(next, key, k, t, Entry(e.fails + n - 1, e.first), 1, from);
    }
  }

  /** An entry of one failure gets as many more as there can be: three in turn, then k let in at the last free place. */
  lemma Fill(run: seq<Event>, key: string, k: nat, t: int, first: int, from: int) returns (next: seq<Event>)
    requires Leads(run, key, k, t, map[key := Entry(1, first)], 0) && k >= 1 && !Expired(Entry(1, first), t)
    ensures Leads(next, key, k, t, map[key := Entry(MaxCount(k), first)], 0)
    ensures next != [] && next[|next| - 1] == Failure(key, t)
    ensures FailuresIn(next, key, from)
      == FailuresIn(run, key, from) + if from <= t < from + LOGIN_WINDOW then 3 + k else 0
  {
    hide Leads, FailuresIn;
    next := FailInTurn(run, key, k, t, Entry(1, first), 3, from);
    next := EnterAll(next, key, k, t, Entry(4, first), k, from);
    next := LeaveAll(next, key, k, t, Entry(4, first), k, from);
  }

  lemma NothingYet(key: string, k: nat, t: int)
    ensures Leads([], key, k, t, map[], 0) && forall from :: FailuresIn([], key, from) == 0
  {
    assert multiset{}[key := 0] == multiset{};
  }

  /** Whatever k is, there is a run in which the bound of FailureRate is met exactly. */
  lemma BoundIsReached(key: string, k: nat) returns (run: seq<Event>)
    requires k >= 1
    ensures Legal(run) && AtMostPending(run, key, k)
    ensures forall e :: e in run ==> !(e.Success? && e.key == key)
    ensures FailuresIn(run, key, LOGIN_WINDOW - 1) == 2 * (MAX_LOGIN_FAILS - 1 + k) - 1
  {
    hide Leads;
    var from := LOGIN_WINDOW - 1;
    NothingYet(key, k, 0);
    run := Open([], key, k, 0, map[], from);
    Later(run, key, k, 0, from, map[key := Entry(1, 0)]);
    run := Fill(run, key, k, from, 0, from);
    Later(run, key, k, from, LOGIN_WINDOW, map[key := Entry(MaxCount(k), 0)]);
    run := Open(run, key, k, LOGIN_WINDOW, map[key := Entry(MaxCount(k), 0)], from);
    run := Fill(run, key, k, LOGIN_WINDOW, LOGIN_WINDOW, from);
    Told(run, key, k, LOGIN_WINDOW, map[key := Entry(MaxCount(k), LOGIN_WINDOW)], 0);
  }

  lemma Later(run: seq<Event>, key: string, k: nat, t: int, u: int, m: Entries)
    requires Leads(run, key, k, t, m, 0) && t <= u
    ensures Leads(run, key, k, u, m, 0)
  {}

  lemma Told(run: seq<Event>, key: string, k: nat, t: int, m: Entries, p: nat)
    requires Leads(run, key, k, t, m, p)
    ensures Legal(run) && AtMostPending(run, key, k) && Exec(run) == State(m, multiset{}[key := p])
    ensures (run != [] ==> run[|run| - 1].now <= t) && forall e :: e in run ==> !e.Success?
  {}

  // ---------- eviction ----------

  /** One event of a limiter that never evicts. */
  function StepForever(m: Entries, e: Event): Entries {
    match e
    case Check(key, now) => Checked(m, key, now)
    case Failure(key, now) => Counted(m, key, now)
    case Success(key, _) => m - {key}
  }

  function ExecForever(run: seq<Event>): Entries {
    if run == [] then map[] else StepForever(ExecForever(run[..|run| - 1]), run[|run| - 1])
  }

  /** The answers to the checks of a run. */
  function Answers(run: seq<Event>): seq<int> {
    if run == [] then []
    else
      var front, e := run[..|run| - 1], run[|run| - 1];
      Answers(front) + if e.Check? then [Wait(Exec(front).entries, e.key, e.now)] else []
  }

  function AnswersForever(run: seq<Event>): seq<int> {
    if run == [] then []
    else
      var front, e := run[..|run| - 1], run[|run| - 1];
      AnswersForever(front) + if e.Check? then [Wait(ExecForever(front), e.key, e.now)] else []
  }

  /** A failure that finds more than 10000 entries leaves none of another key whose window is over, and every other. */
  lemma EvictionForgets(s: State, key: string, now: int, k: string)
    requires k != key
    ensures k in Step(s, Failure(key, now)).entries
      <==> k in s.entries && (|s.entries| > 10000 ==> now <= s.entries[k].first + 15 * 60 * 1_000_000_000)
    ensures k in Step(s, Failure(key, now)).entries ==> Step(s, Failure(key, now)).entries[k] == s.entries[k]
  {}

  /** m is full without some entries that have expired. */
  ghost predicate MissesOnlyExpired(m: Entries, full: Entries, clock: int) {
    && (forall k :: k in m ==> k in full && m[k] == full[k])
    && (forall k :: k in full && k !in m ==> Expired(full[k], clock))
  }

  /** A limiter that evicts answers every check of every run as one that keeps all entries forever. */
  lemma {:induction false} EvictionUnobservable(run: seq<Event>)
    requires Monotone(run)
    ensures Answers(run) == AnswersForever(run)
    ensures run != [] ==> MissesOnlyExpired(Exec(run).entries, ExecForever(run), run[|run| - 1].now)
  {
    if run != [] {
      var front, e := run[..|run| - 1], run[|run| - 1];
      EvictionUnobservable(front);
      assert MissesOnlyExpired(Exec(front).entries, ExecForever(front), e.now);
      EvictingStep(Exec(front), ExecForever(front), e);
    }
  }

  lemma EvictingStep(s: State, full: Entries, e: Event)
    requires MissesOnlyExpired(s.entries, full, e.now)
    ensures MissesOnlyExpired(Step(s, e).entries, StepForever(full, e), e.now)
    ensures Wait(s.entries, e.key, e.now) == Wait(full, e.key, e.now)
  {
    if e.Failure? {
      hide Evicted, Counted;
      EvictionMisses(s.entries, full, e.now);
      CountingMisses(Evicted(s.entries, e.now), full, e.key, e.now);
    } else {
      hide Evicted, Counted;
    }
  }

  lemma EvictionMisses(m: Entries, full: Entries, now: int)
    requires MissesOnlyExpired(m, full, now)
    ensures MissesOnlyExpired(Evicted(m, now), full, now)
  {}

  lemma CountingMisses(m: Entries, full: Entries, key: string, now: int)
    requires MissesOnlyExpired(m, full, now)
    ensures MissesOnlyExpired(Counted(m, key, now), Counted(full, key, now), now)
  {}
}
