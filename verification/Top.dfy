/** The processes with the highest CPU rates (internal/collector/process.go:39-78), over the reals, in nanoseconds. */
module Top {
  import opened Process
  import opened Sorting
  import opened Words
  import opened Wrappers

  datatype ProcSample = ProcSample(ticks: U64, at: int)
  datatype ProcessInfo = ProcessInfo(pid: int, name: string, cpuPct: real)

  /** A directory entry that is named after a number, and its stat line if it can still be read. */
  datatype ProcEntry = ProcEntry(pid: int, stat: Option<string>)

  const CLOCK_TICKS_PER_SEC: real := 100.0

  function Stat(e: ProcEntry): Option<(string, U64)> {
    if e.stat.None? then None else ReadProcStat(e.stat.value)
  }

  /** The samples a call leaves behind. */
  function Samples(entries: seq<ProcEntry>, now: int): map<int, ProcSample> {
    if entries == [] then map[]
    else
      var before, e := Samples(entries[..|entries| - 1], now), entries[|entries| - 1];
      if Stat(e).None? then before else before[e.pid := ProcSample(Stat(e).value.1, now)]
  }

  /** A process has a rate when the previous call saw it, earlier, and with no more ticks than now. */
  predicate Eligible(prev: map<int, ProcSample>, e: ProcEntry, now: int) {
    Stat(e).Some? && e.pid in prev && Stat(e).value.1 >= prev[e.pid].ticks && now > prev[e.pid].at
  }

  function Info(prev: map<int, ProcSample>, e: ProcEntry, now: int): ProcessInfo
    requires Eligible(prev, e, now)
  {
    var (name, ticks) := Stat(e).value;
    var dSeconds := (now - prev[e.pid].at) as real / 1_000_000_000.0;
    ProcessInfo(e.pid, name, 100.0 * (ticks - prev[e.pid].ticks) as real / CLOCK_TICKS_PER_SEC / dSeconds)
  }

  /** The rates of all eligible processes, in directory order. */
  function Rated(prev: map<int, ProcSample>, entries: seq<ProcEntry>, now: int): seq<ProcessInfo> {
    if entries == [] then []
    else
      var e := entries[|entries| - 1];
      Rated(prev, entries[..|entries| - 1], now) + if Eligible(prev, e, now) then [Info(prev, e, now)] else []
  }

  // ---------- samples and rates, process by process ----------

  ghost predicate DistinctPids(entries: seq<ProcEntry>) {
    forall i, j :: 0 <= i < j < |entries| ==> entries[i].pid != entries[j].pid
  }

  /** A call remembers of every process it could read the ticks and the time, and of no other. */
  lemma {:induction false} SamplesAre(entries: seq<ProcEntry>, now: int, pid: int, sample: ProcSample)
    requires DistinctPids(entries)
    ensures pid in Samples(entries, now) && Samples(entries, now)[pid] == sample
      <==> exists e, name :: e in entries && e.pid == pid && e.stat.Some?
             && ReadProcStat(e.stat.value) == Some((name, sample.ticks)) && sample.at == now
    ensures pid in Samples(entries, now) ==> exists e :: e in entries && e.pid == pid
  {
    hide ReadProcStat;
    if entries != [] {
      var front, last := entries[..|entries| - 1], entries[|entries| - 1];
      assert last in entries && forall e :: e in front ==> e in entries;
      SamplesAre(front, now, pid, sample);
      assert forall e :: e in entries ==> e in front || e == last;
      if last.pid == pid { assert forall e :: e in front ==> e.pid != pid; }
      if Stat(last).Some? { assert Stat(last) == Some((Stat(last).value.0, Stat(last).value.1)); }
    }
  }

  /**
   * A process is rated when the previous call read it too, earlier and with no
   * more ticks than now, and its rate is the hundredths of a second it ran
   * over the time that passed.
   */
  lemma RatedOne(prev: map<int, ProcSample>, e: ProcEntry, now: int)
    ensures var r := Rated(prev, [e], now);
      if e.stat.Some? && ReadProcStat(e.stat.value).Some? && e.pid in prev && prev[e.pid].at < now
        && prev[e.pid].ticks <= ReadProcStat(e.stat.value).value.1
      then
        var (name, ticks) := ReadProcStat(e.stat.value).value;
        && |r| == 1 && r[0].pid == e.pid && r[0].name == name
        && r[0].cpuPct * (now - prev[e.pid].at) as real == (ticks - prev[e.pid].ticks) as real * 1_000_000_000.0
      else r == []
  {
    hide ReadProcStat;
    assert [e][..0] == [];
    if Eligible(prev, e, now) {
      var n, d := (now - prev[e.pid].at) as real, (Stat(e).value.1 - prev[e.pid].ticks) as real;
      RateTimes(n, d);
    }
  }

  lemma RateTimes(n: real, d: real)
    requires n > 0.0
    ensures 100.0 * d / CLOCK_TICKS_PER_SEC / (n / 1_000_000_000.0) * n == d * 1_000_000_000.0
  {
    assert 100.0 * d / CLOCK_TICKS_PER_SEC == d;
    var s := n / 1_000_000_000.0;
    assert n == s * 1_000_000_000.0;
    var q := d / s;
    assert q * s == d;
    assert q * n == (q * s) * 1_000_000_000.0;
  }

  lemma {:induction false} RatedSplits(prev: map<int, ProcSample>, a: seq<ProcEntry>, b: seq<ProcEntry>, now: int)
    ensures Rated(prev, a + b, now) == Rated(prev, a, now) + Rated(prev, b, now)
  {
    hide Eligible;
    if b == [] {
      assert a + b == a;
    } else {
      assert (a + b)[..|a + b| - 1] == a + b[..|b| - 1];
      RatedSplits(prev, a, b[..|b| - 1], now);
    }
  }

  predicate NotSlower(a: ProcessInfo, b: ProcessInfo) { a.cpuPct >= b.cpuPct }

  /** out are the n fastest of all, in order; rest are those left out. */
  ghost predicate Selects(out: seq<ProcessInfo>, rest: seq<ProcessInfo>, all: seq<ProcessInfo>, n: nat) {
    && multiset(out) + multiset(rest) == multiset(all)
    && |out| == (if |all| < n then |all| else n)
    && Sorted(out, NotSlower)
    && forall a, b :: a in out && b in rest ==> NotSlower(a, b)
  }

  class ProcessCollector {
    var prev: map<int, ProcSample>

    constructor ()
      ensures prev == map[]
    {
      prev := map[];
    }

    /** With rates equal, which processes are kept is the sort's choice. */
    method Top(entries: seq<ProcEntry>, now: int, n: nat) returns (out: seq<ProcessInfo>, ghost rest: seq<ProcessInfo>)
      modifies this
      ensures prev == Samples(entries, now)
      ensures Selects(out, rest, Rated(old(prev), entries, now), n)
    {
      var cur;
      cur, out := Rates(entries, now);
      prev := cur;

      out := SortSlice(out, NotSlower);
      ghost var sorted := out;
      rest := [];
      if |out| > n {
        rest := out[n..];
        out := out[..n];
      }
      TakesFirst(sorted, Rated(old(prev), entries, now), n);
    }

    /** One pass over /proc: what the next call compares with, and the rates against the previous call. */
    method Rates(entries: seq<ProcEntry>, now: int) returns (cur: map<int, ProcSample>, out: seq<ProcessInfo>)
      ensures cur == Samples(entries, now) && out == Rated(prev, entries, now)
    {
      hide ReadProcStat;
      cur, out := map[], [];
      for i := 0 to |entries|
        invariant cur == Samples(entries[..i], now) && out == Rated(prev, entries[..i], now)
      {
        var e := entries[i];
        assert entries[..i + 1][..i] == entries[..i];
        if e.stat.None? { continue; }
        var stat := ReadProcStat(e.stat.value);
        if stat.None? { continue; }
        var (name, ticks) := stat.value;
        cur := cur[e.pid := ProcSample(ticks, now)];
        if e.pid !in prev || ticks < prev[e.pid].ticks { continue; }
        var dSeconds := (now - prev[e.pid].at) as real / 1_000_000_000.0;
        if dSeconds <= 0.0 { continue; }
        var cpuPct := 100.0 * (ticks - prev[e.pid].ticks) as real / CLOCK_TICKS_PER_SEC / dSeconds;
        out := out + [ProcessInfo(e.pid, name, cpuPct)];
      }
      assert entries[..|entries|] == entries;
    }
  }

  /** The first n of a sorted list, and the others. */
  lemma TakesFirst(sorted: seq<ProcessInfo>, all: seq<ProcessInfo>, n: nat)
    requires multiset(sorted) == multiset(all) && Sorted(sorted, NotSlower)
    ensures var k := if |sorted| > n then n else |sorted|;
      Selects(sorted[..k], sorted[k..], all, n)
  {
    var k := if |sorted| > n then n else |sorted|;
    assert sorted == sorted[..k] + sorted[k..];
    assert |multiset(sorted)| == |multiset(all)|;
  }

  /** The top n are determined up to ties: two selections show the same rates, rank by rank. */
  lemma {:induction false} SameRates(a: seq<ProcessInfo>, ra: seq<ProcessInfo>,
                                     b: seq<ProcessInfo>, rb: seq<ProcessInfo>,
                                     all: seq<ProcessInfo>, n: nat, k: nat)
    requires Selects(a, ra, all, n) && Selects(b, rb, all, n) && k < |a|
    ensures |a| == |b| && a[k].cpuPct == b[k].cpuPct
  {
    CountAtLeast(a, ra, b, rb, k);
    CountAtLeast(b, rb, a, ra, k);
  }

  lemma Excess<T(!new)>(a: multiset<T>, b: multiset<T>) returns (x: T)
    requires |a| > |b|
    ensures a[x] > b[x]
  {
    assert a <= b ==> b == a + (b - a);
    x :| a[x] > b[x];
  }

  lemma SplitCount<T>(s: seq<T>, k: nat, x: T)
    requires k <= |s|
    ensures multiset(s)[x] == multiset(s[..k])[x] + multiset(s[k..])[x]
  {
    assert s == s[..k] + s[k..];
  }

  /** b[k] cannot be slower than a[k]: one of the k + 1 fastest of a is not among the k fastest of b. */
  lemma CountAtLeast(a: seq<ProcessInfo>, ra: seq<ProcessInfo>, b: seq<ProcessInfo>, rb: seq<ProcessInfo>, k: nat)
    requires multiset(a) + multiset(ra) == multiset(b) + multiset(rb)
    requires k < |a| == |b| && Sorted(a, NotSlower) && Sorted(b, NotSlower)
    requires forall x, y :: x in b && y in rb ==> NotSlower(x, y)
    ensures b[k].cpuPct >= a[k].cpuPct
  {
    assert |multiset(a[..k + 1])| == k + 1 && |multiset(b[..k])| == k;
    var x := Excess(multiset(a[..k + 1]), multiset(b[..k]));
    SplitCount(a, k + 1, x);
    SplitCount(b, k, x);
    assert (multiset(a) + multiset(ra))[x] == (multiset(b) + multiset(rb))[x];
    assert x.cpuPct >= a[k].cpuPct by {
      var i :| 0 <= i <= k && a[..k + 1][i] == x;
      assert i == k || NotSlower(a[i], a[k]);
    }
    if x in b[k..] {
      var j :| 0 <= j < |b[k..]| && b[k..][j] == x;
      assert j == 0 || NotSlower(b[k], b[k + j]);
    } else {
      assert x in rb && b[k] in b;
    }
  }
}
