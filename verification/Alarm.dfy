/** Threshold alarms and how long each has been firing (internal/alarm/alarm.go), over the reals. */
module Alarm {

  datatype Thresholds = Thresholds(
    cpuWarn: real, cpuCrit: real, ramCrit: real, diskWarn: real, diskCrit: real, ioWaitCrit: real,
    stealWarn: real, stealCrit: real, diskLatencyCrit: real, tempWarn: real, tempCrit: real)

  datatype Disk = Disk(mount: string, usedPct: real)
  datatype DiskIO = DiskIO(device: string, latencyMs: real)
  datatype Temp = Temp(zone: string, celsius: real, isPrimaryCPU: bool)

  datatype Metrics = Metrics(
    time: int, cpuUsage: real, cpuIOWait: real, cpuSteal: real, ramUsed: real,
    disks: seq<Disk>, diskIO: seq<DiskIO>, temps: seq<Temp>)

  datatype Alarm = Alarm(id: string, metric: string, severity: string, message: string, value: real, since: int)

  /** A call of raise. */
  datatype Raise = Raise(id: string, metric: string, severity: string, message: string, value: real)

  // ---------- what a snapshot raises ----------

  function TwoLevels(value: real, crit: real, warn: real, id: string, metric: string, critMsg: string, warnMsg: string)
    : seq<Raise>
  {
    if value >= crit then [Raise(id, metric, "crit", critMsg, value)]
    else if value >= warn then [Raise(id, metric, "warn", warnMsg, value)]
    else []
  }

  function OneLevel(value: real, crit: real, id: string, metric: string, message: string): seq<Raise> {
    if value >= crit then [Raise(id, metric, "crit", message, value)] else []
  }

  function DiskRaises(th: Thresholds, d: Disk): seq<Raise> {
    TwoLevels(d.usedPct, th.diskCrit, th.diskWarn, DiskId(d.mount), "disk.used_pct",
              "Disco " + d.mount + " casi lleno", "Disco " + d.mount + " alto")
  }

  function DiskIORaises(th: Thresholds, io: DiskIO): seq<Raise> {
    OneLevel(io.latencyMs, th.diskLatencyCrit, DiskIOId(io.device), "disk_io.latency_ms",
             "Latencia de disco alta en " + io.device)
  }

  function TempRaises(th: Thresholds, t: Temp): seq<Raise> {
    if !t.isPrimaryCPU then []
    else TwoLevels(t.celsius, th.tempCrit, th.tempWarn, TempId(t.zone), "temp.celsius",
                   "Temperatura de CPU muy alta", "Temperatura de CPU elevada")
  }

  function DiskId(mount: string): string { "disk." + mount + ".used" }
  function DiskIOId(device: string): string { "diskio." + device + ".latency" }
  function TempId(zone: string): string { "temp." + zone }

  function Each<A>(items: seq<A>, f: A -> seq<Raise>): seq<Raise> {
    if items == [] then [] else Each(items[..|items| - 1], f) + f(items[|items| - 1])
  }

  function SystemRaises(th: Thresholds, m: Metrics): seq<Raise> {
    TwoLevels(m.cpuUsage, th.cpuCrit, th.cpuWarn, "cpu.usage", "cpu.usage_pct", "CPU muy alto", "CPU alto")
    + OneLevel(m.ramUsed, th.ramCrit, "ram.used", "ram.used_pct", "RAM muy alta")
    + OneLevel(m.cpuIOWait, th.ioWaitCrit, "cpu.iowait", "cpu.iowait_pct",
               "iowait alto (posible cuello de botella de disco)")
    + TwoLevels(m.cpuSteal, th.stealCrit, th.stealWarn, "cpu.steal", "cpu.steal_pct",
                "CPU robada por el hypervisor", "CPU robada por el hypervisor")
  }

  /** The calls of raise a snapshot causes, in order. */
  function Raises(th: Thresholds, m: Metrics): seq<Raise> {
    SystemRaises(th, m)
    + Each(m.disks, d => DiskRaises(th, d))
    + Each(m.diskIO, io => DiskIORaises(th, io))
    + Each(m.temps, t => TempRaises(th, t))
  }

  function FiringIds(th: Thresholds, m: Metrics): set<string> {
    set r | r in Raises(th, m) :: r.id
  }

  // ---------- the alarms a history of snapshots stands for ----------

  /** The last raise of an id: repeated ids in one snapshot overwrite each other. */
  function LastRaise(rs: seq<Raise>, id: string): (r: Raise)
    requires exists q :: q in rs && q.id == id
    ensures r in rs && r.id == id
  {
    var q := rs[|rs| - 1];
    if q.id == id then q
    else
      assert forall p :: p in rs && p.id == id ==> p in rs[..|rs| - 1];
      LastRaise(rs[..|rs| - 1], id)
  }

  /** When the unbroken stretch of snapshots firing id that ends the history began. */
  function StretchStart(th: Thresholds, h: seq<Metrics>, id: string): int
    requires h != []
  {
    var n := |h| - 1;
    if n == 0 || id !in FiringIds(th, h[n - 1]) then h[n].time else StretchStart(th, h[..n], id)
  }

  /** The alarms the latest snapshot fires, as it raised them last, each since the start of its stretch. */
  function ActiveAfter(th: Thresholds, h: seq<Metrics>): map<string, Alarm> {
    if h == [] then map[]
    else
      var m := h[|h| - 1];
      map id | id in FiringIds(th, m) ::
        var r := LastRaise(Raises(th, m), id);
        Alarm(id, r.metric, r.severity, r.message, r.value, StretchStart(th, h, id))
  }

  /** StretchStart in terms of the snapshots themselves. */
  lemma {:induction false} StretchIsUnbroken(th: Thresholds, h: seq<Metrics>, id: string) returns (first: nat)
    requires h != [] && id in FiringIds(th, h[|h| - 1])
    ensures first < |h| && StretchStart(th, h, id) == h[first].time
    ensures forall k :: first <= k < |h| ==> id in FiringIds(th, h[k])
    ensures first > 0 ==> id !in FiringIds(th, h[first - 1])
  {
    hide FiringIds;
    var n := |h| - 1;
    if n == 0 || id !in FiringIds(th, h[n - 1]) {
      first := n;
    } else {
      first := StretchIsUnbroken(th, h[..n], id);
    }
  }

  // ---------- ids ----------

  datatype Source =
    | CpuUsage | RamUsed | CpuIOWait | CpuSteal
    | DiskOf(mount: string) | DiskIOOf(device: string) | TempOf(zone: string)

  function IdOf(src: Source): string {
    match src
    case CpuUsage => "cpu.usage"
    case RamUsed => "ram.used"
    case CpuIOWait => "cpu.iowait"
    case CpuSteal => "cpu.steal"
    case DiskOf(mount) => DiskId(mount)
    case DiskIOOf(device) => DiskIOId(device)
    case TempOf(zone) => TempId(zone)
  }

  function MetricOf(src: Source): string {
    match src
    case CpuUsage => "cpu.usage_pct"
    case RamUsed => "ram.used_pct"
    case CpuIOWait => "cpu.iowait_pct"
    case CpuSteal => "cpu.steal_pct"
    case DiskOf(_) => "disk.used_pct"
    case DiskIOOf(_) => "disk_io.latency_ms"
    case TempOf(_) => "temp.celsius"
  }

  /** Whatever the names of mounts, devices and zones, two sources never share an id. */
  lemma IdsInjective(a: Source, b: Source)
    requires IdOf(a) == IdOf(b)
    ensures a == b
  {
    var s := IdOf(a);
    if a.DiskOf? { assert s[4] == '.' && s[5..|s| - 5] == a.mount; }
    if b.DiskOf? { assert s[4] == '.' && s[5..|s| - 5] == b.mount; }
    if a.DiskIOOf? { assert s[4] == 'i' && s[7..|s| - 8] == a.device; }
    if b.DiskIOOf? { assert s[4] == 'i' && s[7..|s| - 8] == b.device; }
    if a.TempOf? { assert s[0] == 't' && s[5..] == a.zone; }
    if b.TempOf? { assert s[0] == 't' && s[5..] == b.zone; }
  }

  ghost predicate HasSource(r: Raise) {
    exists src :: r.id == IdOf(src) && r.metric == MetricOf(src)
  }

  lemma {:induction false} EachHasSource<A>(items: seq<A>, f: A -> seq<Raise>)
    requires forall a, r :: r in f(a) ==> HasSource(r)
    ensures forall r :: r in Each(items, f) ==> HasSource(r)
  {
    if items != [] { EachHasSource(items[..|items| - 1], f); }
  }

  lemma RaisesHaveSources(th: Thresholds, m: Metrics)
    ensures forall r :: r in Raises(th, m) ==> HasSource(r)
  {
    assert HasId(CpuUsage, "cpu.usage", "cpu.usage_pct") && HasId(RamUsed, "ram.used", "ram.used_pct");
    assert HasId(CpuIOWait, "cpu.iowait", "cpu.iowait_pct") && HasId(CpuSteal, "cpu.steal", "cpu.steal_pct");
    forall d, r | r in DiskRaises(th, d) ensures HasSource(r) { assert HasId(DiskOf(d.mount), r.id, r.metric); }
    forall io, r | r in DiskIORaises(th, io) ensures HasSource(r) { assert HasId(DiskIOOf(io.device), r.id, r.metric); }
    forall t, r | r in TempRaises(th, t) ensures HasSource(r) { assert HasId(TempOf(t.zone), r.id, r.metric); }
    EachHasSource(m.disks, d => DiskRaises(th, d));
    EachHasSource(m.diskIO, io => DiskIORaises(th, io));
    EachHasSource(m.temps, t => TempRaises(th, t));
  }

  predicate HasId(src: Source, id: string, metric: string) { id == IdOf(src) && metric == MetricOf(src) }

  /** An id always comes with the same metric, across snapshots too. */
  lemma IdFixesMetric(th: Thresholds, m: Metrics, n: Metrics, r: Raise, q: Raise)
    requires r in Raises(th, m) && q in Raises(th, n) && r.id == q.id
    ensures r.metric == q.metric
  {
    RaisesHaveSources(th, m);
    RaisesHaveSources(th, n);
    var a :| r.id == IdOf(a) && r.metric == MetricOf(a);
    var b :| q.id == IdOf(b) && q.metric == MetricOf(b);
    IdsInjective(a, b);
  }

  // ---------- when an alarm fires ----------

  /** Critical from one threshold on, and a warning from another up to there. */
  ghost predicate AtLevel(value: real, warn: real, crit: real, severity: string) {
    (severity == "crit" && value >= crit) || (severity == "warn" && warn <= value && value < crit)
  }

  /** The snapshot has this source at this value, which is of this severity. */
  ghost predicate Fires(th: Thresholds, m: Metrics, src: Source, value: real, severity: string) {
    match src
    case CpuUsage => value == m.cpuUsage && AtLevel(value, th.cpuWarn, th.cpuCrit, severity)
    case RamUsed => value == m.ramUsed && value >= th.ramCrit && severity == "crit"
    case CpuIOWait => value == m.cpuIOWait && value >= th.ioWaitCrit && severity == "crit"
    case CpuSteal => value == m.cpuSteal && AtLevel(value, th.stealWarn, th.stealCrit, severity)
    case DiskOf(mount) => Disk(mount, value) in m.disks && AtLevel(value, th.diskWarn, th.diskCrit, severity)
    case DiskIOOf(device) => DiskIO(device, value) in m.diskIO && value >= th.diskLatencyCrit && severity == "crit"
    case TempOf(zone) => Temp(zone, value, true) in m.temps && AtLevel(value, th.tempWarn, th.tempCrit, severity)
  }

  lemma {:induction false} InEach<A>(items: seq<A>, f: A -> seq<Raise>, r: Raise)
    ensures r in Each(items, f) <==> exists a :: a in items && r in f(a)
  {
    if items != [] {
      var front, last := items[..|items| - 1], items[|items| - 1];
      InEach(front, f, r);
      if a :| a in items && r in f(a) { assert a in front || a == last; }
      if a :| a in front && r in f(a) { assert a in items; }
      assert last in items;
    }
  }

  lemma SystemFires(th: Thresholds, m: Metrics, r: Raise) returns (src: Source)
    requires r in SystemRaises(th, m)
    ensures r.id == IdOf(src) && Fires(th, m, src, r.value, r.severity)
  {
    src := if r in TwoLevels(m.cpuUsage, th.cpuCrit, th.cpuWarn, "cpu.usage", "cpu.usage_pct",
                             "CPU muy alto", "CPU alto") then CpuUsage
           else if r in OneLevel(m.ramUsed, th.ramCrit, "ram.used", "ram.used_pct", "RAM muy alta") then RamUsed
           else if r in OneLevel(m.cpuIOWait, th.ioWaitCrit, "cpu.iowait", "cpu.iowait_pct",
                                 "iowait alto (posible cuello de botella de disco)") then CpuIOWait
           else CpuSteal;
  }

  lemma RaiseFires(th: Thresholds, m: Metrics, r: Raise) returns (src: Source)
    requires r in Raises(th, m)
    ensures r.id == IdOf(src) && Fires(th, m, src, r.value, r.severity)
  {
    hide SystemRaises, Each, DiskId, DiskIOId, TempId;
    InEach(m.disks, d => DiskRaises(th, d), r);
    InEach(m.diskIO, io => DiskIORaises(th, io), r);
    InEach(m.temps, t => TempRaises(th, t), r);
    if r in SystemRaises(th, m) {
      src := SystemFires(th, m, r);
    } else if d :| d in m.disks && r in DiskRaises(th, d) {
      src := DiskOf(d.mount);
      assert d == Disk(d.mount, d.usedPct);
    } else if io :| io in m.diskIO && r in DiskIORaises(th, io) {
      src := DiskIOOf(io.device);
      assert io == DiskIO(io.device, io.latencyMs);
    } else {
      var t :| t in m.temps && r in TempRaises(th, t);
      src := TempOf(t.zone);
      assert t == Temp(t.zone, t.celsius, true);
    }
  }

  lemma FiresRaises(th: Thresholds, m: Metrics, src: Source, value: real, severity: string) returns (r: Raise)
    requires Fires(th, m, src, value, severity)
    ensures r in Raises(th, m) && r.id == IdOf(src) && r.value == value && r.severity == severity
  {
    hide Each, DiskId, DiskIOId, TempId;
    match src {
      case DiskOf(mount) =>
        r := DiskRaises(th, Disk(mount, value))[0];
        InEach(m.disks, d => DiskRaises(th, d), r);
      case DiskIOOf(device) =>
        r := DiskIORaises(th, DiskIO(device, value))[0];
        InEach(m.diskIO, io => DiskIORaises(th, io), r);
      case TempOf(zone) =>
        r := TempRaises(th, Temp(zone, value, true))[0];
        InEach(m.temps, t => TempRaises(th, t), r);
      case _ =>
        r := SystemRaise(th, m, src, value, severity);
    }
  }

  lemma SystemRaise(th: Thresholds, m: Metrics, src: Source, value: real, severity: string) returns (r: Raise)
    requires Fires(th, m, src, value, severity) && (src.CpuUsage? || src.RamUsed? || src.CpuIOWait? || src.CpuSteal?)
    ensures r in SystemRaises(th, m) && r.id == IdOf(src) && r.value == value && r.severity == severity
  {
    match src {
      case CpuUsage =>
        var message := if severity == "crit" then "CPU muy alto" else "CPU alto";
        r := Raise("cpu.usage", "cpu.usage_pct", severity, message, value);
      case RamUsed =>
        r := Raise("ram.used", "ram.used_pct", "crit", "RAM muy alta", value);
      case CpuIOWait =>
        r := Raise("cpu.iowait", "cpu.iowait_pct", "crit", "iowait alto (posible cuello de botella de disco)", value);
      case CpuSteal =>
        r := Raise("cpu.steal", "cpu.steal_pct", severity, "CPU robada por el hypervisor", value);
    }
  }

  /**
   * An alarm of a source is active exactly when the latest snapshot has the
   * source at a value that fires, and it shows such a value with its severity.
   */
  lemma ActiveIff(th: Thresholds, h: seq<Metrics>, src: Source)
    requires h != []
    ensures var active, m := ActiveAfter(th, h), h[|h| - 1];
      && (IdOf(src) in active <==> exists value, severity :: Fires(th, m, src, value, severity))
      && (IdOf(src) in active ==> Fires(th, m, src, active[IdOf(src)].value, active[IdOf(src)].severity))
  {
    hide Fires, Raises, IdOf;
    var active, m := ActiveAfter(th, h), h[|h| - 1];
    if IdOf(src) in active {
      var r := LastRaise(Raises(th, m), IdOf(src));
      var s := RaiseFires(th, m, r);
      IdsInjective(s, src);
    }
    if value, severity :| Fires(th, m, src, value, severity) {
      var r := FiresRaises(th, m, src, value, severity);
    }
  }

  // ---------- the evaluator ----------

  /** What raise puts into the next set of alarms. */
  function Raised(active: map<string, Alarm>, now: int, r: Raise): Alarm {
    if r.id in active then active[r.id].(severity := r.severity, message := r.message, value := r.value)
    else Alarm(r.id, r.metric, r.severity, r.message, r.value, now)
  }

  function RaiseAll(active: map<string, Alarm>, now: int, rs: seq<Raise>): map<string, Alarm> {
    if rs == [] then map[]
    else
      var r := rs[|rs| - 1];
      RaiseAll(active, now, rs[..|rs| - 1])[r.id := Raised(active, now, r)]
  }

  lemma {:induction false} RaiseAllKeepsLast(active: map<string, Alarm>, now: int, rs: seq<Raise>)
    ensures var next := RaiseAll(active, now, rs);
      && (forall id :: id in next <==> exists r :: r in rs && r.id == id)
      && (forall id :: id in next ==> next[id] == Raised(active, now, LastRaise(rs, id)))
  {
    if rs != [] {
      var front, last := rs[..|rs| - 1], rs[|rs| - 1];
      RaiseAllKeepsLast(active, now, front);
      var next := RaiseAll(active, now, rs);
      forall id ensures id in next <==> exists r :: r in rs && r.id == id {
        if id in RaiseAll(active, now, front) {
          var r :| r in front && r.id == id;
          assert r in rs;
        }
        if id == last.id { assert last in rs; }
        if r :| r in rs && r.id == id { assert r in front || r == last; }
      }
    }
  }

  /** Each snapshot turns the alarms of the history into those of the longer history. */
  lemma EvaluateStep(th: Thresholds, h: seq<Metrics>, m: Metrics)
    ensures RaiseAll(ActiveAfter(th, h), m.time, Raises(th, m)) == ActiveAfter(th, h + [m])
  {
    hide Raises;
    var active, rs := ActiveAfter(th, h), Raises(th, m);
    var next, goal := RaiseAll(active, m.time, rs), ActiveAfter(th, h + [m]);
    RaiseAllKeepsLast(active, m.time, rs);
    assert (h + [m])[..|h|] == h;
    forall id | id in FiringIds(th, m) ensures next[id] == goal[id] {
      var r := LastRaise(rs, id);
      if id in active {
        var was := h[|h| - 1];
        IdFixesMetric(th, m, was, r, LastRaise(Raises(th, was), id));
      }
    }
    assert next.Keys == FiringIds(th, m) == goal.Keys;
  }

  lemma ActiveKeyed(th: Thresholds, h: seq<Metrics>)
    ensures forall id :: id in ActiveAfter(th, h) ==> ActiveAfter(th, h)[id].id == id
  {}

  /** out holds every alarm of m exactly once. */
  ghost predicate Lists(out: seq<Alarm>, m: map<string, Alarm>) {
    && |out| == |m|
    && (forall i, j :: 0 <= i < j < |out| ==> out[i].id != out[j].id)
    && (forall a :: a in out <==> a.id in m && m[a.id] == a)
  }

  class Evaluator {
    const th: Thresholds
    var active: map<string, Alarm>
    var last: seq<Alarm>
    /** The snapshots evaluated so far. */
    ghost var history: seq<Metrics>

    ghost predicate Valid()
      reads this
    {
      active == ActiveAfter(th, history) && Lists(last, active)
    }

    constructor (th: Thresholds)
      ensures Valid() && this.th == th && history == []
    {
      this.th, active, last, history := th, map[], [], [];
    }

    method Evaluate(m: Metrics) returns (out: seq<Alarm>)
      requires Valid()
      modifies this
      ensures Valid() && history == old(history) + [m]
      ensures active == ActiveAfter(th, old(history) + [m])
      ensures out == last && Lists(out, active)
    {
      hide ActiveAfter, SystemRaises, DiskRaises, DiskIORaises, TempRaises;
      var next := RaiseSystem(m);
      next := RaiseDisks(m, next, SystemRaises(th, m));
      next := RaiseDiskIO(m, next, SystemRaises(th, m) + Each(m.disks, d => DiskRaises(th, d)));
      next := RaiseTemps(m, next, SystemRaises(th, m) + Each(m.disks, d => DiskRaises(th, d))
                                  + Each(m.diskIO, io => DiskIORaises(th, io)));
      EvaluateStep(th, history, m);
      ActiveKeyed(th, history + [m]);
      active := next;
      out := List(next);
      last := out;
      history := history + [m];
    }

    /** The raise closure; rs is what has been raised before. */
    method RaiseOne(next: map<string, Alarm>, now: int, id: string, metric: string, severity: string, message: string,
                    value: real, ghost rs: seq<Raise>)
      returns (r: map<string, Alarm>)
      requires next == RaiseAll(active, now, rs)
      ensures r == RaiseAll(active, now, rs + [Raise(id, metric, severity, message, value)])
    {
      assert (rs + [Raise(id, metric, severity, message, value)])[..|rs|] == rs;
      if id in active {
        var a := active[id];
        a := a.(severity := severity, message := message, value := value);
        r := next[id := a];
      } else {
        r := next[id := Alarm(id, metric, severity, message, value, now)];
      }
    }

    method RaiseTwoLevels(next: map<string, Alarm>, now: int, value: real, crit: real, warn: real, id: string,
                          metric: string, critMsg: string, warnMsg: string, ghost rs: seq<Raise>)
      returns (r: map<string, Alarm>)
      requires next == RaiseAll(active, now, rs)
      ensures r == RaiseAll(active, now, rs + TwoLevels(value, crit, warn, id, metric, critMsg, warnMsg))
    {
      if value >= crit {
        r := RaiseOne(next, now, id, metric, "crit", critMsg, value, rs);
      } else if value >= warn {
        r := RaiseOne(next, now, id, metric, "warn", warnMsg, value, rs);
      } else {
        assert rs + [] == rs;
        r := next;
      }
    }

    method RaiseOneLevel(next: map<string, Alarm>, now: int, value: real, crit: real, id: string, metric: string,
                         message: string, ghost rs: seq<Raise>)
      returns (r: map<string, Alarm>)
      requires next == RaiseAll(active, now, rs)
      ensures r == RaiseAll(active, now, rs + OneLevel(value, crit, id, metric, message))
    {
      if value >= crit {
        r := RaiseOne(next, now, id, metric, "crit", message, value, rs);
      } else {
        assert rs + [] == rs;
        r := next;
      }
    }

    method RaiseSystem(m: Metrics) returns (next: map<string, Alarm>)
      ensures next == RaiseAll(active, m.time, SystemRaises(th, m))
    {
      hide RaiseAll, TwoLevels, OneLevel;
      ghost var a := TwoLevels(m.cpuUsage, th.cpuCrit, th.cpuWarn, "cpu.usage", "cpu.usage_pct",
                               "CPU muy alto", "CPU alto");
      ghost var b := OneLevel(m.ramUsed, th.ramCrit, "ram.used", "ram.used_pct", "RAM muy alta");
      ghost var c := OneLevel(m.cpuIOWait, th.ioWaitCrit, "cpu.iowait", "cpu.iowait_pct",
                              "iowait alto (posible cuello de botella de disco)");
      NothingRaised(active, m.time);
      next := map[];
      next := RaiseTwoLevels(next, m.time, m.cpuUsage, th.cpuCrit, th.cpuWarn, "cpu.usage", "cpu.usage_pct",
                             "CPU muy alto", "CPU alto", []);
      assert [] + a == a;
      next := RaiseOneLevel(next, m.time, m.ramUsed, th.ramCrit, "ram.used", "ram.used_pct", "RAM muy alta", a);
      next := RaiseOneLevel(next, m.time, m.cpuIOWait, th.ioWaitCrit, "cpu.iowait", "cpu.iowait_pct",
                            "iowait alto (posible cuello de botella de disco)", a + b);
      next := RaiseTwoLevels(next, m.time, m.cpuSteal, th.stealCrit, th.stealWarn, "cpu.steal", "cpu.steal_pct",
                             "CPU robada por el hypervisor", "CPU robada por el hypervisor", a + b + c);
    }

    method RaiseDisks(m: Metrics, before: map<string, Alarm>, ghost rs: seq<Raise>) returns (next: map<string, Alarm>)
      requires before == RaiseAll(active, m.time, rs)
      ensures next == RaiseAll(active, m.time, rs + Each(m.disks, d => DiskRaises(th, d)))
    {
      hide RaiseAll, TwoLevels;
      ghost var f := d => DiskRaises(th, d);
      next := before;
      assert rs + [] == rs && m.disks[..0] == [];
      for n := 0 to |m.disks|
        invariant next == RaiseAll(active, m.time, rs + Each(m.disks[..n], f))
      {
        var d := m.disks[n];
        EachGrows(m.disks, n, f, rs);
        next := RaiseTwoLevels(next, m.time, d.usedPct, th.diskCrit, th.diskWarn, "disk." + d.mount + ".used",
                               "disk.used_pct", "Disco " + d.mount + " casi lleno", "Disco " + d.mount + " alto",
                               rs + Each(m.disks[..n], f));
      }
      assert m.disks[..|m.disks|] == m.disks;
    }

    method RaiseDiskIO(m: Metrics, before: map<string, Alarm>, ghost rs: seq<Raise>) returns (next: map<string, Alarm>)
      requires before == RaiseAll(active, m.time, rs)
      ensures next == RaiseAll(active, m.time, rs + Each(m.diskIO, io => DiskIORaises(th, io)))
    {
      hide RaiseAll, OneLevel;
      ghost var f := io => DiskIORaises(th, io);
      next := before;
      assert rs + [] == rs && m.diskIO[..0] == [];
      for n := 0 to |m.diskIO|
        invariant next == RaiseAll(active, m.time, rs + Each(m.diskIO[..n], f))
      {
        var io := m.diskIO[n];
        EachGrows(m.diskIO, n, f, rs);
        next := RaiseOneLevel(next, m.time, io.latencyMs, th.diskLatencyCrit, "diskio." + io.device + ".latency",
                              "disk_io.latency_ms", "Latencia de disco alta en " + io.device,
                              rs + Each(m.diskIO[..n], f));
      }
      assert m.diskIO[..|m.diskIO|] == m.diskIO;
    }

    method RaiseTemps(m: Metrics, before: map<string, Alarm>, ghost rs: seq<Raise>) returns (next: map<string, Alarm>)
      requires before == RaiseAll(active, m.time, rs)
      ensures next == RaiseAll(active, m.time, rs + Each(m.temps, t => TempRaises(th, t)))
    {
      hide RaiseAll, TwoLevels;
      ghost var f := t => TempRaises(th, t);
      next := before;
      assert rs + [] == rs && m.temps[..0] == [];
      for n := 0 to |m.temps|
        invariant next == RaiseAll(active, m.time, rs + Each(m.temps[..n], f))
      {
        var t := m.temps[n];
        EachGrows(m.temps, n, f, rs);
        if !t.isPrimaryCPU {
          assert rs + Each(m.temps[..n], f) + [] == rs + Each(m.temps[..n], f);
          continue;
        }
        next := RaiseTwoLevels(next, m.time, t.celsius, th.tempCrit, th.tempWarn, "temp." + t.zone, "temp.celsius",
                               "Temperatura de CPU muy alta", "Temperatura de CPU elevada", rs + Each(m.temps[..n], f));
      }
      assert m.temps[..|m.temps|] == m.temps;
    }

    /** Ranging over the map: any order. */
    method List(next: map<string, Alarm>) returns (out: seq<Alarm>)
      requires forall id :: id in next ==> next[id].id == id
      ensures Lists(out, next)
    {
      out := [];
      var todo := next.Keys;
      while todo != {}
        invariant todo <= next.Keys && |out| + |todo| == |next|
        invariant forall i, j :: 0 <= i < j < |out| ==> out[i].id != out[j].id
        invariant forall a :: a in out <==> a.id in next && a.id !in todo && next[a.id] == a
      {
        var id :| id in todo;
        out := out + [next[id]];
        todo := todo - {id};
      }
    }
  }

  lemma NothingRaised(active: map<string, Alarm>, now: int)
    ensures RaiseAll(active, now, []) == map[]
  {}

  lemma EachGrows<A>(items: seq<A>, n: nat, f: A -> seq<Raise>, rs: seq<Raise>)
    requires n < |items|
    ensures rs + Each(items[..n + 1], f) == rs + Each(items[..n], f) + f(items[n])
  {
    assert items[..n + 1][..n] == items[..n];
  }
}
