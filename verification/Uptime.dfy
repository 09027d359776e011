/** Reboot sessions of the host (internal/uptime/log.go). */
module Uptime {
  import opened EventLog
  import opened Sequences
  import opened Wrappers

  const MAX_SESSIONS: nat := 200
  /** Nanoseconds. */
  const SECOND: int := 1_000_000_000

  datatype Session = Session(start: int, end: Option<int>)
  datatype Observation = Observation(now: int, bootTime: int)

  /** Time.Round(time.Second): to the nearest second, halves up. */
  function RoundToSecond(t: int): int {
    var r := t % SECOND;
    if r + r < SECOND then t - r else t + (SECOND - r)
  }

  /** The nearest whole second, the later one of two that are as near. */
  lemma RoundsToNearest(t: int, r: int)
    requires r % 1_000_000_000 == 0
    ensures RoundToSecond(t) == r <==> -500_000_000 < r - t <= 500_000_000
  {}

  // ---------- the sessions a history of observations stands for ----------

  function Boot(h: seq<Observation>, i: nat): int
    requires i < |h|
  {
    RoundToSecond(h[i].bootTime)
  }

  predicate StartsRun(h: seq<Observation>, i: nat)
    requires i < |h|
  {
    i == 0 || Boot(h, i) != Boot(h, i - 1)
  }

  /** The observations that begin a run of equal rounded boot times. */
  function RunStarts(h: seq<Observation>): (r: seq<nat>)
    ensures forall k :: 0 <= k < |r| ==> r[k] < |h|
  {
    if h == [] then []
    else
      var n := |h| - 1;
      RunStarts(h[..n]) + if StartsRun(h, n) then [n] else []
  }

  /** One session per run, closed when the next run is first observed. */
  function SessionsOf(h: seq<Observation>): seq<Session> {
    var starts := RunStarts(h);
    seq(|starts|, k requires 0 <= k < |starts| =>
      Session(Boot(h, starts[k]), if k + 1 < |starts| then Some(h[starts[k + 1]].now) else None))
  }

  /** RunStarts lists exactly the positions where a run starts, in order. */
  lemma {:induction false} RunStartsExact(h: seq<Observation>)
    ensures var r := RunStarts(h);
      && (forall j, k :: 0 <= j < k < |r| ==> r[j] < r[k])
      && (forall i :: i in r <==> 0 <= i < |h| && StartsRun(h, i))
  {
    if h != [] {
      var n := |h| - 1;
      RunStartsExact(h[..n]);
      assert forall i :: 0 <= i < n ==> (StartsRun(h, i) <==> StartsRun(h[..n], i));
    }
  }

  lemma {:induction false} SomeRun(h: seq<Observation>)
    requires h != []
    ensures RunStarts(h) != []
  {
    if |h| > 1 { SomeRun(h[..|h| - 1]); }
  }

  /** Another observation of the same boot changes nothing. */
  lemma SameBoot(h: seq<Observation>, o: Observation)
    requires h != [] && RoundToSecond(o.bootTime) == Boot(h, |h| - 1)
    ensures SessionsOf(h + [o]) == SessionsOf(h)
  {
    assert (h + [o])[..|h|] == h;
  }

  /** The first observation of another boot closes the session that was open and opens one. */
  lemma NewBoot(h: seq<Observation>, o: Observation)
    requires h != [] && RoundToSecond(o.bootTime) != Boot(h, |h| - 1)
    ensures var s := SessionsOf(h);
      && s != []
      && SessionsOf(h + [o])
         == s[|s| - 1 := s[|s| - 1].(end := Some(o.now))] + [Session(RoundToSecond(o.bootTime), None)]
  {
    SomeRun(h);
    var next := h + [o];
    assert next[..|h|] == h;
    assert RunStarts(next) == RunStarts(h) + [|h|];
    assert forall k :: 0 <= k < |RunStarts(h)| ==> Boot(next, RunStarts(h)[k]) == Boot(h, RunStarts(h)[k]);
  }

  lemma ClosedLast(all: seq<Session>, now: int)
    requires all != []
    ensures var kept := LastN(all, MAX_SESSIONS);
      LastN(all[|all| - 1 := all[|all| - 1].(end := Some(now))], MAX_SESSIONS)
      == kept[|kept| - 1 := kept[|kept| - 1].(end := Some(now))]
  {}

  lemma FirstSession(o: Observation)
    ensures SessionsOf([]) == [] && SessionsOf([o]) == [Session(RoundToSecond(o.bootTime), None)]
  {
    assert RunStarts([o]) == [0] by { assert [o][..0] == []; }
  }

  lemma {:induction false} LastStart(h: seq<Observation>)
    requires h != []
    ensures var s := SessionsOf(h); s != [] && s[|s| - 1] == Session(Boot(h, |h| - 1), None)
  {
    var n := |h| - 1;
    assert h == h[..n] + [h[n]];
    if n > 0 {
      LastStart(h[..n]);
      if RoundToSecond(h[n].bootTime) == Boot(h[..n], n - 1) {
        SameBoot(h[..n], h[n]);
      } else {
        NewBoot(h[..n], h[n]);
      }
    } else {
      assert RunStarts(h[..0]) == [] && RunStarts(h) == [0];
    }
  }

  class Log {
    const file: File<Session>
    var sessions: seq<Session>
    var lastBootTime: int
    /** Every observation so far, by this process and by earlier ones on the same file. */
    ghost var history: seq<Observation>

    /** The sessions are the last MAX_SESSIONS runs of the whole history, in memory and on disk. */
    ghost predicate Valid()
      reads this, file
    {
      && sessions == LastN(SessionsOf(history), MAX_SESSIONS)
      && file.lines == sessions
      && (history != [] ==> lastBootTime == Boot(history, |history| - 1))
    }

    /** NewLog: on the file that earlier observations left, it carries on from there. */
    constructor (file: File<Session>, ghost history: seq<Observation>)
      requires file.lines == LastN(SessionsOf(history), MAX_SESSIONS)
      ensures Valid() && this.file == file && this.history == history
    {
      this.file, this.history := file, history;
      sessions := file.lines;
      lastBootTime := if |file.lines| > 0 then file.lines[|file.lines| - 1].start else 0;
      new;
      if history != [] { LastStart(history); }
    }

    method Observe(now: int, bootTime: int)
      requires Valid()
      modifies this, file
      ensures Valid() && history == old(history) + [Observation(now, bootTime)]
      ensures sessions == LastN(SessionsOf(old(history) + [Observation(now, bootTime)]), MAX_SESSIONS)
    {
      ghost var o := Observation(now, bootTime);
      ghost var before := SessionsOf(history);
      ghost var after := SessionsOf(history + [o]);
      if history != [] { LastStart(history); }
      FirstSession(o);
      hide SessionsOf, RunStarts, RoundToSecond;
      var boot := RoundToSecond(bootTime);
      if |sessions| == 0 {
        assert history + [o] == [o];
        sessions := sessions + [Session(boot, None)];
        lastBootTime := boot;
        Persist();
      } else if boot == lastBootTime {
        SameBoot(history, o);
      } else {
        NewBoot(history, o);
        ClosedLast(before, now);
        ghost var closed := before[|before| - 1 := before[|before| - 1].(end := Some(now))];
        sessions := sessions[|sessions| - 1 := sessions[|sessions| - 1].(end := Some(now))];
        LastNAppend(closed, Session(boot, None), MAX_SESSIONS);
        sessions := sessions + [Session(boot, None)];
        lastBootTime := boot;
        if |sessions| > MAX_SESSIONS {
          sessions := sessions[|sessions| - MAX_SESSIONS..];
        }
        Persist();
      }
      history := history + [o];
    }

    method Persist()
      modifies file
      ensures file.lines == sessions
    {
      file.lines := sessions;
    }

    /** Most recent first; only the first can still be going on, and it is. */
    method Sessions() returns (out: seq<Session>)
      requires Valid()
      ensures out == Reverse(LastN(SessionsOf(history), MAX_SESSIONS))
      ensures forall i :: 0 <= i < |out| ==> (out[i].end.None? <==> i == 0)
    {
      out := [];
      for i := 0 to |sessions|
        invariant |out| == i && forall k :: 0 <= k < i ==> out[k] == sessions[|sessions| - 1 - k]
      {
        out := out + [sessions[|sessions| - 1 - i]];
      }
    }
  }

  /** A restart between any two observations leaves everything as it was. */
  method Restart(log: Log) returns (next: Log)
    requires log.Valid()
    ensures next.Valid() && fresh(next)
    ensures next.history == log.history && next.file == log.file && next.sessions == log.sessions
    ensures log.history != [] ==> next.lastBootTime == log.lastBootTime
  {
    next := new Log(log.file, log.history);
  }
}
