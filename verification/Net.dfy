/** Interface rates between two readings (internal/collector/net.go:57-78), over the reals; times in nanoseconds. */
module Net {
  import opened Words

  datatype NetSample = NetSample(
    rxBytes: U64, rxPackets: U64, rxErrs: U64, rxDrop: U64,
    txBytes: U64, txPackets: U64, txErrs: U64, txDrop: U64, at: int)

  type Reading = map<string, NetSample>

  datatype NetIface = NetIface(name: string, rxBps: real, txBps: real, packetsPS: real, errorsPS: real, dropsPS: real)

  function Seconds(from: int, to: int): real { (to - from) as real / 1_000_000_000.0 }

  /** An interface is reported when both readings have it, in order, and neither byte counter went down. */
  predicate Reported(prev: Reading, cur: Reading, name: string) {
    && name in cur && name in prev && cur[name].at > prev[name].at
    && cur[name].rxBytes >= prev[name].rxBytes && cur[name].txBytes >= prev[name].txBytes
  }

  function Rates(name: string, p: NetSample, c: NetSample): NetIface
    requires c.at > p.at
  {
    var s := Seconds(p.at, c.at);
    NetIface(name,
             (c.rxBytes - p.rxBytes) as real / s,
             (c.txBytes - p.txBytes) as real / s,
             Add(Sub(c.rxPackets, p.rxPackets), Sub(c.txPackets, p.txPackets)) as real / s,
             Add(Sub(c.rxErrs, p.rxErrs), Sub(c.txErrs, p.txErrs)) as real / s,
             Add(Sub(c.rxDrop, p.rxDrop), Sub(c.txDrop, p.txDrop)) as real / s)
  }

  /** out reports every reportable interface once, and no other. */
  ghost predicate Reports(out: seq<NetIface>, prev: Reading, cur: Reading) {
    && (forall i, j :: 0 <= i < j < |out| ==> out[i].name != out[j].name)
    && (forall x :: x in out <==> Reported(prev, cur, x.name) && x == Rates(x.name, prev[x.name], cur[x.name]))
  }

  method NetDeltas(prev: Reading, cur: Reading) returns (out: seq<NetIface>)
    ensures Reports(out, prev, cur)
    ensures cur == map[] ==> out == []
  {
    out := [];
    var todo := cur.Keys;
    while todo != {}
      invariant todo <= cur.Keys
      invariant cur == map[] ==> out == []
      invariant forall i, j :: 0 <= i < j < |out| ==> out[i].name != out[j].name
      invariant forall x :: x in out <==>
        x.name !in todo && Reported(prev, cur, x.name) && x == Rates(x.name, prev[x.name], cur[x.name])
    {
      var name :| name in todo;
      todo := todo - {name};
      var c := cur[name];
      if name !in prev { continue; }
      var p := prev[name];
      var dSeconds := Seconds(p.at, c.at);
      if dSeconds <= 0.0 || c.rxBytes < p.rxBytes || c.txBytes < p.txBytes { continue; }
      var x := NetIface(name,
                        (c.rxBytes - p.rxBytes) as real / dSeconds,
                        (c.txBytes - p.txBytes) as real / dSeconds,
                        Add(Sub(c.rxPackets, p.rxPackets), Sub(c.txPackets, p.txPackets)) as real / dSeconds,
                        Add(Sub(c.rxErrs, p.rxErrs), Sub(c.txErrs, p.txErrs)) as real / dSeconds,
                        Add(Sub(c.rxDrop, p.rxDrop), Sub(c.txDrop, p.txDrop)) as real / dSeconds);
      assert x == Rates(name, p, c);
      out := out + [x];
    }
  }

  // ---------- runs of readings ----------

  /** The interface is in every reading, at strictly later times, and its byte counters never decrease. */
  ghost predicate Steady(readings: seq<Reading>, name: string) {
    && (forall r :: r in readings ==> name in r)
    && (forall i, j :: 0 <= i < j < |readings| ==>
          && readings[i][name].at < readings[j][name].at
          && readings[i][name].rxBytes <= readings[j][name].rxBytes
          && readings[i][name].txBytes <= readings[j][name].txBytes)
  }

  datatype Bytes = Bytes(rx: real, tx: real)

  /** What one tick reports as received and sent: rate times elapsed time, 0 if nothing is reported. */
  function TickBytes(prev: Reading, cur: Reading, name: string): Bytes {
    if Reported(prev, cur, name) then
      var x, s := Rates(name, prev[name], cur[name]), (cur[name].at - prev[name].at) as real / 1_000_000_000.0;
      Bytes(x.rxBps * s, x.txBps * s)
    else Bytes(0.0, 0.0)
  }

  function RunBytes(readings: seq<Reading>, name: string): Bytes {
    if |readings| < 2 then Bytes(0.0, 0.0)
    else
      var n := |readings| - 1;
      var before, tick := RunBytes(readings[..n], name), TickBytes(readings[n - 1], readings[n], name);
      Bytes(before.rx + tick.rx, before.tx + tick.tx)
  }

  lemma RatesAreQuotients(name: string, p: NetSample, c: NetSample)
    requires c.at > p.at
    ensures var x, s := Rates(name, p, c), Seconds(p.at, c.at);
      s > 0.0 && x.rxBps == (c.rxBytes - p.rxBytes) as real / s && x.txBps == (c.txBytes - p.txBytes) as real / s
  {}

  lemma TickIsDifference(p: Reading, c: Reading, name: string)
    requires Reported(p, c, name)
    ensures TickBytes(p, c, name)
      == Bytes((c[name].rxBytes - p[name].rxBytes) as real, (c[name].txBytes - p[name].txBytes) as real)
  {
    hide Rates;
    var s := Seconds(p[name].at, c[name].at);
    RatesAreQuotients(name, p[name], c[name]);
    var x := Rates(name, p[name], c[name]);
    QuotientTimes((c[name].rxBytes - p[name].rxBytes) as real, s, x.rxBps);
    QuotientTimes((c[name].txBytes - p[name].txBytes) as real, s, x.txBps);
  }

  lemma QuotientTimes(x: real, s: real, q: real)
    requires s > 0.0 && q == x / s
    ensures q * s == x
  {}

  /** Rate times elapsed time, summed over any run of ticks, is the last counter minus the first. */
  lemma {:induction false} RatesTelescope(readings: seq<Reading>, name: string)
    requires readings != [] && Steady(readings, name)
    ensures var first, last := readings[0][name], readings[|readings| - 1][name];
      RunBytes(readings, name) == Bytes((last.rxBytes - first.rxBytes) as real, (last.txBytes - first.txBytes) as real)
  {
    if |readings| >= 2 {
      var n := |readings| - 1;
      RatesTelescope(readings[..n], name);
      TickIsDifference(readings[n - 1], readings[n], name);
    }
  }

  /** No rate of traffic is negative. */
  lemma RatesNotNegative(out: seq<NetIface>, prev: Reading, cur: Reading, x: NetIface)
    requires Reports(out, prev, cur) && x in out
    ensures x.rxBps >= 0.0 && x.txBps >= 0.0
  {
    hide Rates, Seconds;
    var p, c := prev[x.name], cur[x.name];
    RatesAreQuotients(x.name, p, c);
    QuotientNotNegative((c.rxBytes - p.rxBytes) as real, Seconds(p.at, c.at));
    QuotientNotNegative((c.txBytes - p.txBytes) as real, Seconds(p.at, c.at));
  }

  lemma QuotientNotNegative(x: real, s: real)
    requires x >= 0.0 && s > 0.0
    ensures x / s >= 0.0
  {}

  // ---------- packets, errors and drops ----------

  /** What is counted in both directions together. */
  datatype Counts = Counts(packets: int, errors: int, drops: int)

  function CountsOf(c: NetSample): Counts {
    Counts(c.rxPackets + c.txPackets, c.rxErrs + c.txErrs, c.rxDrop + c.txDrop)
  }

  /** The interface is steady, these counters too never decrease, and both directions together fit 64 bits. */
  ghost predicate SteadyCounts(readings: seq<Reading>, name: string) {
    && Steady(readings, name)
    && (forall r :: r in readings ==>
          var c := CountsOf(r[name]); c.packets < MODULUS && c.errors < MODULUS && c.drops < MODULUS)
    && (forall i, j :: 0 <= i < j < |readings| ==>
          var p, c := readings[i][name], readings[j][name];
          && p.rxPackets <= c.rxPackets && p.txPackets <= c.txPackets && p.rxErrs <= c.rxErrs
          && p.txErrs <= c.txErrs && p.rxDrop <= c.rxDrop && p.txDrop <= c.txDrop)
  }

  datatype Totals = Totals(packets: real, errors: real, drops: real)

  function TickTotals(prev: Reading, cur: Reading, name: string): Totals {
    if Reported(prev, cur, name) then
      var x, s := Rates(name, prev[name], cur[name]), (cur[name].at - prev[name].at) as real / 1_000_000_000.0;
      Totals(x.packetsPS * s, x.errorsPS * s, x.dropsPS * s)
    else Totals(0.0, 0.0, 0.0)
  }

  function RunTotals(readings: seq<Reading>, name: string): Totals {
    if |readings| < 2 then Totals(0.0, 0.0, 0.0)
    else
      var n := |readings| - 1;
      var before, tick := RunTotals(readings[..n], name), TickTotals(readings[n - 1], readings[n], name);
      Totals(before.packets + tick.packets, before.errors + tick.errors, before.drops + tick.drops)
  }

  lemma OneCount(a: U64, b: U64, c: U64, d: U64, s: real)
    requires a <= b && c <= d && b + d < MODULUS && s > 0.0
    ensures Add(Sub(b, a), Sub(d, c)) as real / s * s == (b + d - a - c) as real
  {
    SumFits(a, b, c, d);
    QuotientTimes((b + d - a - c) as real, s, (b + d - a - c) as real / s);
  }

  lemma SumFits(a: U64, b: U64, c: U64, d: U64)
    requires a <= b && c <= d && b + d < MODULUS
    ensures Add(Sub(b, a), Sub(d, c)) == b + d - a - c
  {}

  lemma PacketsTick(name: string, p: NetSample, c: NetSample)
    requires c.at > p.at && p.rxPackets <= c.rxPackets && p.txPackets <= c.txPackets
    requires c.rxPackets + c.txPackets < MODULUS
    ensures Rates(name, p, c).packetsPS * Seconds(p.at, c.at) == (CountsOf(c).packets - CountsOf(p).packets) as real
  {
    hide Add, Sub;
    OneCount(p.rxPackets, c.rxPackets, p.txPackets, c.txPackets, Seconds(p.at, c.at));
  }

  lemma ErrorsTick(name: string, p: NetSample, c: NetSample)
    requires c.at > p.at && p.rxErrs <= c.rxErrs && p.txErrs <= c.txErrs && c.rxErrs + c.txErrs < MODULUS
    ensures Rates(name, p, c).errorsPS * Seconds(p.at, c.at) == (CountsOf(c).errors - CountsOf(p).errors) as real
  {
    hide Add, Sub;
    OneCount(p.rxErrs, c.rxErrs, p.txErrs, c.txErrs, Seconds(p.at, c.at));
  }

  lemma DropsTick(name: string, p: NetSample, c: NetSample)
    requires c.at > p.at && p.rxDrop <= c.rxDrop && p.txDrop <= c.txDrop && c.rxDrop + c.txDrop < MODULUS
    ensures Rates(name, p, c).dropsPS * Seconds(p.at, c.at) == (CountsOf(c).drops - CountsOf(p).drops) as real
  {
    hide Add, Sub;
    OneCount(p.rxDrop, c.rxDrop, p.txDrop, c.txDrop, Seconds(p.at, c.at));
  }

  lemma TwoSteady(p: Reading, c: Reading, name: string)
    requires SteadyCounts([p, c], name)
    ensures Reported(p, c, name) && name in p && name in c && p[name].at < c[name].at
    ensures var a, b := p[name], c[name];
      && a.rxPackets <= b.rxPackets && a.txPackets <= b.txPackets && b.rxPackets + b.txPackets < MODULUS
      && a.rxErrs <= b.rxErrs && a.txErrs <= b.txErrs && b.rxErrs + b.txErrs < MODULUS
      && a.rxDrop <= b.rxDrop && a.txDrop <= b.txDrop && b.rxDrop + b.txDrop < MODULUS
  {
    assert [p, c][0] == p && [p, c][1] == c && c in [p, c] && p in [p, c];
  }

  lemma CountTick(p: Reading, c: Reading, name: string)
    requires SteadyCounts([p, c], name)
    ensures name in p && name in c
    ensures var x, y := CountsOf(p[name]), CountsOf(c[name]);
      TickTotals(p, c, name)
      == Totals((y.packets - x.packets) as real, (y.errors - x.errors) as real, (y.drops - x.drops) as real)
  {
    hide Rates, SteadyCounts, Reported, CountsOf;
    TwoSteady(p, c, name);
    PacketsTick(name, p[name], c[name]);
    ErrorsTick(name, p[name], c[name]);
    DropsTick(name, p[name], c[name]);
  }

  lemma SteadyParts(readings: seq<Reading>, name: string)
    requires |readings| >= 2 && SteadyCounts(readings, name)
    ensures var n := |readings| - 1;
      SteadyCounts(readings[..n], name) && SteadyCounts([readings[n - 1], readings[n]], name)
  {
    var n := |readings| - 1;
    assert readings[n - 1] in readings && readings[n] in readings;
    assert forall r :: r in readings[..n] ==> r in readings;
  }

  /** Packets, errors and drops telescope as the bytes do. */
  lemma {:induction false} CountsTelescope(readings: seq<Reading>, name: string)
    requires readings != [] && SteadyCounts(readings, name)
    ensures name in readings[0] && name in readings[|readings| - 1]
    ensures var first, last := CountsOf(readings[0][name]), CountsOf(readings[|readings| - 1][name]);
      RunTotals(readings, name) == Totals((last.packets - first.packets) as real,
                                          (last.errors - first.errors) as real, (last.drops - first.drops) as real)
  {
    assert readings[0] in readings && readings[|readings| - 1] in readings;
    if |readings| >= 2 {
      hide SteadyCounts, TickTotals;
      var n := |readings| - 1;
      SteadyParts(readings, name);
      CountsTelescope(readings[..n], name);
      CountTick(readings[n - 1], readings[n], name);
    }
  }
}
