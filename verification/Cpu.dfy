/** CPU shares between two readings of wrapping counters (internal/collector/cpu.go), over the reals. */
module Cpu {
  import opened Reals
  import opened Words

  datatype CpuSample = CpuSample(
    user: U64, nice: U64, system: U64, idle: U64, iowait: U64, irq: U64, softirq: U64, steal: U64)

  datatype Shares = Shares(usage: real, user: real, system: real, iowait: real, steal: real, idle: real)

  const ZERO := Shares(0.0, 0.0, 0.0, 0.0, 0.0, 0.0)

  function Total(s: CpuSample): U64 {
    Add(Add(Add(Add(Add(Add(Add(s.user, s.nice), s.system), s.idle), s.iowait), s.irq), s.softirq), s.steal)
  }

  function DeltaPct(prev: CpuSample, cur: CpuSample): Shares {
    var dTotal := Sub(Total(cur), Total(prev)) as real;
    if dTotal <= 0.0 then ZERO
    else
      var dIOWait, dIdle := Sub(cur.iowait, prev.iowait) as real, Sub(cur.idle, prev.idle) as real;
      Shares(100.0 * (1.0 - (dIdle + dIOWait) / dTotal),
             100.0 * Sub(cur.user, prev.user) as real / dTotal,
             100.0 * Sub(cur.system, prev.system) as real / dTotal,
             100.0 * dIOWait / dTotal,
             100.0 * Sub(cur.steal, prev.steal) as real / dTotal,
             100.0 * dIdle / dTotal)
  }

  // ---------- the counters as they would be without wrapping ----------

  datatype Counters = Counters(
    user: nat, nice: nat, system: nat, idle: nat, iowait: nat, irq: nat, softirq: nat, steal: nat)

  function Wrapped(c: Counters): CpuSample {
    CpuSample(Wrap(c.user), Wrap(c.nice), Wrap(c.system), Wrap(c.idle),
              Wrap(c.iowait), Wrap(c.irq), Wrap(c.softirq), Wrap(c.steal))
  }

  function TrueTotal(c: Counters): nat {
    c.user + c.nice + c.system + c.idle + c.iowait + c.irq + c.softirq + c.steal
  }

  function TrueBusy(c: Counters): nat { c.user + c.nice + c.system + c.irq + c.softirq + c.steal }

  predicate Advances(p: Counters, c: Counters) {
    && p.user <= c.user && p.nice <= c.nice && p.system <= c.system && p.idle <= c.idle
    && p.iowait <= c.iowait && p.irq <= c.irq && p.softirq <= c.softirq && p.steal <= c.steal
  }

  lemma TotalWraps(c: Counters)
    ensures Total(Wrapped(c)) == Wrap(TrueTotal(c))
  {
    hide Wrap, Add;
    WrapAddBoth(c.user, c.nice);
    WrapAddBoth(c.user + c.nice, c.system);
    WrapAddBoth(c.user + c.nice + c.system, c.idle);
    WrapAddBoth(c.user + c.nice + c.system + c.idle, c.iowait);
    WrapAddBoth(c.user + c.nice + c.system + c.idle + c.iowait, c.irq);
    WrapAddBoth(c.user + c.nice + c.system + c.idle + c.iowait + c.irq, c.softirq);
    WrapAddBoth(c.user + c.nice + c.system + c.idle + c.iowait + c.irq + c.softirq, c.steal);
  }

  /** part of whole, in percent. */
  function Percent(part: int, whole: int): real
    requires whole > 0
  {
    100.0 * part as real / whole as real
  }

  lemma PercentInRange(part: int, whole: int)
    requires 0 <= part <= whole && whole > 0
    ensures 0.0 <= Percent(part, whole) <= 100.0
  {
    QuotientBetween(100.0 * part as real, whole as real, 0.0, 100.0);
  }

  lemma SharesAdd(a: int, b: int, whole: int)
    requires whole > 0
    ensures 100.0 * (1.0 - (a as real + b as real) / whole as real) == Percent(whole - a - b, whole)
  {
    var n, q := whole as real, (a as real + b as real) / whole as real;
    assert q * n == a as real + b as real;
    assert (100.0 * (1.0 - q)) * n == 100.0 * (n - q * n) == 100.0 * (whole - a - b) as real;
    Cancel(100.0 * (1.0 - q), Percent(whole - a - b, whole), n);
  }

  lemma Cancel(x: real, y: real, n: real)
    requires n > 0.0 && x * n == y * n
    ensures x == y
  {}

  lemma PercentsAdd(a: int, b: int, whole: int)
    requires whole > 0
    ensures Percent(a, whole) + Percent(b, whole) == Percent(a + b, whole)
  {}

  lemma WholeIsHundred(whole: int)
    requires whole > 0
    ensures Percent(whole, whole) == 100.0
  {}

  /**
   * As long as every counter only grows, and all together by less than 2^64
   * between two readings, wrapping does not show: every share is that of the
   * true counters, lies between 0 and 100, and usage, idle and iowait make 100.
   */
  lemma SharesAreTrue(p: Counters, c: Counters)
    requires Advances(p, c) && 0 < TrueTotal(c) - TrueTotal(p) < MODULUS
    ensures var s, whole := DeltaPct(Wrapped(p), Wrapped(c)), TrueTotal(c) - TrueTotal(p);
      && s == Shares(Percent(TrueBusy(c) - TrueBusy(p), whole), Percent(c.user - p.user, whole),
                     Percent(c.system - p.system, whole), Percent(c.iowait - p.iowait, whole),
                     Percent(c.steal - p.steal, whole), Percent(c.idle - p.idle, whole))
      && 0.0 <= s.usage <= 100.0 && 0.0 <= s.user <= 100.0 && 0.0 <= s.system <= 100.0
      && 0.0 <= s.iowait <= 100.0 && 0.0 <= s.steal <= 100.0 && 0.0 <= s.idle <= 100.0
      && s.usage + s.idle + s.iowait == 100.0
  {
    hide Total, Sub, Wrap, Percent;
    var whole := TrueTotal(c) - TrueTotal(p);
    TotalWraps(p);
    TotalWraps(c);
    WrappedDifference(TrueTotal(c), TrueTotal(p));
    WrappedDifference(c.user, p.user);
    WrappedDifference(c.system, p.system);
    WrappedDifference(c.iowait, p.iowait);
    WrappedDifference(c.steal, p.steal);
    WrappedDifference(c.idle, p.idle);
    ShareOf(c.user - p.user, whole);
    ShareOf(c.system - p.system, whole);
    ShareOf(c.iowait - p.iowait, whole);
    ShareOf(c.steal - p.steal, whole);
    ShareOf(c.idle - p.idle, whole);
    SharesAdd(c.idle - p.idle, c.iowait - p.iowait, whole);
    ShareOf(TrueBusy(c) - TrueBusy(p), whole);
    assert TrueBusy(c) - TrueBusy(p) == whole - (c.idle - p.idle) - (c.iowait - p.iowait);
    PercentsAdd(TrueBusy(c) - TrueBusy(p), c.idle - p.idle, whole);
    PercentsAdd(TrueBusy(c) - TrueBusy(p) + (c.idle - p.idle), c.iowait - p.iowait, whole);
    WholeIsHundred(whole);
  }

  lemma ShareOf(part: int, whole: int)
    requires 0 <= part <= whole && whole > 0
    ensures 100.0 * part as real / whole as real == Percent(part, whole) && 0.0 <= Percent(part, whole) <= 100.0
  {
    PercentInRange(part, whole);
  }

  /** perCoreDeltaPct: the usage of every core that both readings have. */
  method PerCoreDeltaPct(prev: seq<CpuSample>, cur: seq<CpuSample>) returns (out: seq<real>)
    ensures |out| == if |prev| < |cur| then |prev| else |cur|
    ensures forall i :: 0 <= i < |out| ==> out[i] == DeltaPct(prev[i], cur[i]).usage
  {
    hide DeltaPct;
    var n := |cur|;
    if |prev| < n { n := |prev|; }
    out := [];
    for i := 0 to n
      invariant |out| == i
      invariant forall k :: 0 <= k < i ==> out[k] == DeltaPct(prev[k], cur[k]).usage
    {
      out := out + [DeltaPct(prev[i], cur[i]).usage];
    }
  }
}
