/**
 * When the login limiter refuses a key, and for how long, told by the events of
 * a run alone (internal/auth/session.go:215-269).
 */
module Blocks {
  import opened Limiter
  import opened Wrappers

  // ---------- windows ----------

  predicate Fails(e: Event, key: string) { e.Failure? && e.key == key }

  /** The failures of a key from position i on. */
  function FailuresFrom(run: seq<Event>, key: string, i: nat): (n: nat)
    ensures i < |run| && Fails(run[i], key) ==> n > 0
  {
    if |run| <= i then 0
    else FailuresFrom(run[..|run| - 1], key, i) + if Fails(run[|run| - 1], key) then 1 else 0
  }

  /**
   * The failure that opened the present window of a key: one with no window
   * before it, or more than a window after the last opening. A success ends
   * the window, and so does a check that finds five failures in it and its time over.
   */
  function Opener(run: seq<Event>, key: string): (o: Option<nat>)
    ensures o.Some? ==> o.value < |run| && Fails(run[o.value], key)
  {
    if run == [] then None
    else
      var n := |run| - 1;
      var e, o := run[n], Opener(run[..n], key);
      if e.key != key then o
      else match e
        case Success(_, _) => None
        case Failure(_, now) => if o.None? || now > run[o.value].now + LOGIN_WINDOW then Some(n) else o
        case Check(_, now) =>
          if o.Some? && now >= run[o.value].now + LOGIN_WINDOW
             && FailuresFrom(run[..n], key, o.value) >= MAX_LOGIN_FAILS
          then None else o
  }

  /** How many failures the present window has, and when it was opened. */
  function Window(run: seq<Event>, key: string): Option<Entry> {
    var o := Opener(run, key);
    if o.None? then None else Some(Entry(FailuresFrom(run, key, o.value), run[o.value].now))
  }

  /** The next window of a key, without looking back at the run. */
  function NextWindow(w: Option<Entry>, e: Event, key: string): Option<Entry> {
    if e.key != key then w
    else match e
      case Success(_, _) => None
      case Failure(_, now) =>
        if w.None? || Expired(w.value, now) then Some(Entry(1, now)) else Some(w.value.(fails := w.value.fails + 1))
      case Check(_, now) =>
        if w.Some? && w.value.fails >= MAX_LOGIN_FAILS && now >= w.value.first + LOGIN_WINDOW then None else w
  }

  lemma WindowStep(run: seq<Event>, key: string)
    requires run != []
    ensures Window(run, key) == NextWindow(Window(run[..|run| - 1], key), run[|run| - 1], key)
  {
    var n := |run| - 1;
    assert FailuresFrom(run[..n], key, n) == 0;
  }

  /** m holds the window of the key, unless it is over and was evicted. */
  ghost predicate Holds(m: Entries, key: string, w: Option<Entry>, clock: int) {
    && (key in m ==> w == Some(m[key]))
    && (key !in m && w.Some? ==> Expired(w.value, clock))
  }

  lemma HoldsStep(s: State, e: Event, key: string, w: Option<Entry>, clock: int)
    requires Holds(s.entries, key, w, clock) && clock <= e.now
    ensures Holds(Step(s, e).entries, key, NextWindow(w, e, key), e.now)
  {}

  /** The limiter keeps of every key just how many failures its present window has, and when it was opened. */
  lemma {:induction false} EntryIsWindow(run: seq<Event>, key: string)
    requires Monotone(run)
    ensures run == [] ==> Window(run, key).None? && key !in Exec(run).entries
    ensures run != [] ==> Holds(Exec(run).entries, key, Window(run, key), run[|run| - 1].now)
  {
    if run != [] {
      hide Step, Window, NextWindow;
      var front, e := run[..|run| - 1], run[|run| - 1];
      EntryIsWindow(front, key);
      WindowStep(run, key);
      HoldsStep(Exec(front), e, key, Window(front, key), if front == [] then e.now else front[|front| - 1].now);
    }
  }

  /**
   * At any time from the last event on, a key is refused exactly when its
   * present window has five failures and is not over, and until it is over.
   */
  lemma RefusedIff(run: seq<Event>, key: string, u: int)
    requires Monotone(run) && (run != [] ==> run[|run| - 1].now <= u)
    ensures var o := Opener(run, key);
      Wait(Exec(run).entries, key, u)
      == if o.Some? && FailuresFrom(run, key, o.value) >= MAX_LOGIN_FAILS && u < run[o.value].now + LOGIN_WINDOW
         then run[o.value].now + LOGIN_WINDOW - u else 0
  {
    hide Exec;
    EntryIsWindow(run, key);
  }

  /** Who is refused has failed five times within one window. */
  lemma RefusedHasFailedFive(run: seq<Event>, key: string, u: int) returns (from: int)
    requires Monotone(run) && (run != [] ==> run[|run| - 1].now <= u)
    requires Wait(Exec(run).entries, key, u) > 0
    ensures from <= u < from + LOGIN_WINDOW && FailuresIn(run, key, from) >= MAX_LOGIN_FAILS
  {
    RefusedIff(run, key, u);
    var o := Opener(run, key).value;
    from := run[o].now;
    FailuresInWindow(run, key, o);
  }

  lemma {:induction false} FailuresInWindow(run: seq<Event>, key: string, o: nat)
    requires Monotone(run) && o < |run| && run[|run| - 1].now < run[o].now + LOGIN_WINDOW
    ensures FailuresIn(run, key, run[o].now) >= FailuresFrom(run, key, o)
  {
    var n := |run| - 1;
    if o < n { FailuresInWindow(run[..n], key, o); }
  }

  // ---------- how long a block lasts ----------

  /** At time u a run may stand after its first n events. */
  ghost predicate Current(run: seq<Event>, n: nat, u: int) {
    0 < n <= |run| && run[n - 1].now <= u && (n < |run| ==> u <= run[n].now)
  }

  /** From its first n events on and before `until`, the key is refused whenever it is looked at. */
  ghost predicate RefusedUntil(run: seq<Event>, key: string, n: nat, until: int) {
    forall i, u {:trigger Current(run, i, u)} ::
      n <= i && Current(run, i, u) && u < until ==> Wait(Exec(run[..i]).entries, key, u) > 0
  }

  ghost predicate SucceedsBefore(run: seq<Event>, key: string, n: nat, until: int) {
    exists i :: n <= i < |run| && run[i].Success? && run[i].key == key && run[i].now < until
  }

  /** The failures of the key from position o on all come at one time. */
  ghost predicate AllAtOnce(run: seq<Event>, key: string, o: nat)
    requires o < |run|
  {
    forall j :: o <= j < |run| && Fails(run[j], key) ==> run[j].now == run[o].now
  }

  /**
   * However a run goes on after a failure: a key with five failures in its
   * present window stays refused until that window is over exactly when no
   * login let in before succeeds by then. The key stays refused for a whole
   * window from the failure exactly when its present window has five failures,
   * they all came at one time, and no login let in before succeeds.
   */
  lemma BlockLength(run: seq<Event>, more: seq<Event>, key: string)
    requires run != [] && Fails(run[|run| - 1], key) && Monotone(run + more)
    ensures Opener(run, key).Some?
    ensures var whole, n, t, o := run + more, |run|, run[|run| - 1].now, Opener(run, key).value;
      var blocked, end := FailuresFrom(run, key, o) >= MAX_LOGIN_FAILS, run[o].now + LOGIN_WINDOW;
      && (blocked ==> (RefusedUntil(whole, key, n, end) <==> !SucceedsBefore(whole, key, n, end)))
      && (RefusedUntil(whole, key, n, t + LOGIN_WINDOW)
          <==> blocked && AllAtOnce(run, key, o) && !SucceedsBefore(whole, key, n, t + LOGIN_WINDOW))
  {
    var whole, n, t, o := run + more, |run|, run[|run| - 1].now, Opener(run, key).value;
    var blocked, end := FailuresFrom(run, key, o) >= MAX_LOGIN_FAILS, run[o].now + LOGIN_WINDOW;
    assert whole[..n] == run && Current(whole, n, t);
    AtOnce(run, key, o);
    hide Exec, Wait, Opener, FailuresFrom, AllAtOnce, Fails;
    if SucceedsBefore(whole, key, n, t + LOGIN_WINDOW) { SuccessFrees(whole, key, n, t + LOGIN_WINDOW); }
    if !blocked {
      RefusedIff(run, key, t);
    } else if SucceedsBefore(whole, key, n, end) {
      SuccessFrees(whole, key, n, end);
    } else {
      BlockStands(whole, key, n, o);
      BlockOver(whole, key, n, o);
    }
  }

  lemma AtOnce(run: seq<Event>, key: string, o: nat)
    requires Monotone(run) && o < |run| && Fails(run[|run| - 1], key)
    ensures run[o].now <= run[|run| - 1].now
    ensures AllAtOnce(run, key, o) <==> run[|run| - 1].now == run[o].now
  {}

  lemma SuccessFrees(run: seq<Event>, key: string, n: nat, until: int)
    requires Monotone(run) && SucceedsBefore(run, key, n, until)
    ensures !RefusedUntil(run, key, n, until)
  {
    var i :| n <= i < |run| && run[i].Success? && run[i].key == key && run[i].now < until;
    hide Exec, Wait;
    assert Current(run, i + 1, run[i].now);
    RefusedIff(run[..i + 1], key, run[i].now);
  }

  /** Without a success the window stays the present one as long as it lasts. */
  lemma {:induction false} WindowStays(run: seq<Event>, key: string, n: nat, o: nat, i: nat)
    requires 0 < n <= i <= |run| && Opener(run[..n], key) == Some(o)
    requires !SucceedsBefore(run, key, n, run[o].now + LOGIN_WINDOW)
    requires forall j :: n <= j < i ==> run[j].now < run[o].now + LOGIN_WINDOW
    ensures Opener(run[..i], key) == Some(o) && FailuresFrom(run[..i], key, o) >= FailuresFrom(run[..n], key, o)
    decreases i
  {
    if i > n {
      assert run[..i][..i - 1] == run[..i - 1];
      WindowStays(run, key, n, o, i - 1);
    }
  }

  lemma BlockStands(run: seq<Event>, key: string, n: nat, o: nat)
    requires 0 < n <= |run| && Monotone(run) && Opener(run[..n], key) == Some(o)
    requires FailuresFrom(run[..n], key, o) >= MAX_LOGIN_FAILS
    requires !SucceedsBefore(run, key, n, run[o].now + LOGIN_WINDOW)
    ensures RefusedUntil(run, key, n, run[o].now + LOGIN_WINDOW)
  {
    hide Exec, Wait, Opener, FailuresFrom;
    forall i, u | n <= i && Current(run, i, u) && u < run[o].now + LOGIN_WINDOW
      ensures Wait(Exec(run[..i]).entries, key, u) > 0
    {
      WindowStays(run, key, n, o, i);
      RefusedIff(run[..i], key, u);
    }
  }

  /** When the window is over, so is the block. */
  lemma BlockOver(run: seq<Event>, key: string, n: nat, o: nat)
    requires 0 < n <= |run| && Monotone(run) && Opener(run[..n], key) == Some(o)
    requires !SucceedsBefore(run, key, n, run[o].now + LOGIN_WINDOW)
    ensures forall until :: until > run[o].now + LOGIN_WINDOW && until > run[n - 1].now ==>
      !RefusedUntil(run, key, n, until)
  {
    hide Exec, Wait, Opener, FailuresFrom;
    var end := run[o].now + LOGIN_WINDOW;
    var i := n;
    while i < |run| && run[i].now < end
      invariant n <= i <= |run|
      invariant forall j :: n <= j < i ==> run[j].now < end
    {
      i := i + 1;
    }
    WindowStays(run, key, n, o, i);
    var u := if run[i - 1].now > end then run[i - 1].now else end;
    assert Current(run, i, u);
    RefusedIff(run[..i], key, u);
  }

  // ---------- the documented promise fails ----------

  /**
   * The block is counted from the first failure, not from the fifth: here the
   * fifth comes one nanosecond before the window ends, and one later the key is free.
   */
  lemma BlockCanBeShort(key: string) returns (run: seq<Event>)
    ensures Legal(run) && |run| > 0 && run[|run| - 1] == Failure(key, LOGIN_WINDOW - 1)
    ensures Exec(run).entries == map[key := Entry(5, 0)]
    ensures Wait(Exec(run).entries, key, LOGIN_WINDOW - 1) == 1 && Wait(Exec(run).entries, key, LOGIN_WINDOW) == 0
  {
    hide Leads;
    NothingYet(key, 1, 0);
    run := Open([], key, 1, 0, map[], 0);
    Later(run, key, 1, 0, LOGIN_WINDOW - 1, map[key := Entry(1, 0)]);
    run := Fill(run, key, 1, LOGIN_WINDOW - 1, 0, 0);
    Told(run, key, 1, LOGIN_WINDOW - 1, map[key := Entry(5, 0)], 0);
  }

  /**
   * Five failures need not lie in one window: here, with one login at a time
   * and no success, seven come within a nanosecond, three at the end of a
   * window and four in the next, and the key is free.
   */
  lemma SevenWithoutBlock(key: string) returns (run: seq<Event>)
    ensures Legal(run) && AtMostPending(run, key, 1) && forall e :: e in run ==> !e.Success?
    ensures FailuresIn(run, key, LOGIN_WINDOW) == 7
    ensures run != [] && run[|run| - 1] == Failure(key, LOGIN_WINDOW + 1)
    ensures Wait(Exec(run).entries, key, LOGIN_WINDOW + 1) == 0
  {
    hide Leads, Legal, Exec, FailuresIn;
    var from, late := LOGIN_WINDOW, LOGIN_WINDOW + 1;
    NothingYet(key, 1, 0);
    run := Open([], key, 1, 0, map[], from);
    Later(run, key, 1, 0, from, map[key := Entry(1, 0)]);
    run := FailInTurn(run, key, 1, from, Entry(1, 0), 3, from);
    Later(run, key, 1, from, late, map[key := Entry(4, 0)]);
    run := Open(run, key, 1, late, map[key := Entry(4, 0)], from);
    run := FailInTurn(run, key, 1, late, Entry(1, late), 3, from);
    Told(run, key, 1, late, map[key := Entry(4, late)], 0);
  }

  lemma ThenSuccess(run: seq<Event>, key: string)
    requires Leads(run, key, 2, 0, map[key := Entry(5, 0)], 1)
    ensures Legal(run + [Success(key, 0)]) && key !in Exec(run + [Success(key, 0)]).entries
  {
    assert Step(Exec(run), Success(key, 0)).pending[key] == 0;
    assert key !in Step(Exec(run), Success(key, 0)).entries;
    hide Step, Exec, Legal, AtMostPending, FailuresIn;
    Longer(run, Success(key, 0), key, 2, 0);
  }

  /**
   * A login let in before the fifth failure may succeed after it, which ends
   * the block: here all five failures come at once and so does the success.
   */
  lemma SuccessEndsBlock(key: string) returns (run: seq<Event>)
    ensures Legal(run + [Success(key, 0)])
    ensures run != [] && run[|run| - 1] == Failure(key, 0) && FailuresIn(run, key, 0) == 5
    ensures Wait(Exec(run).entries, key, 0) == LOGIN_WINDOW
    ensures Wait(Exec(run + [Success(key, 0)]).entries, key, 1) == 0
  {
    hide Leads, Legal, Exec, FailuresIn;
    NothingYet(key, 2, 0);
    run := Open([], key, 2, 0, map[], 0);
    run := FailInTurn(run, key, 2, 0, Entry(1, 0), 3, 0);
    run := EnterAll(run, key, 2, 0, Entry(4, 0), 2, 0);
    run := Leave(run, key, 2, 0, map[key := Entry(4, 0)], 2, 0);
    Told(run, key, 2, 0, map[key := Entry(5, 0)], 1);
    ThenSuccess(run, key);
  }
}
