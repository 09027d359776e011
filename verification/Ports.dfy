/** Deduplication and range compression of Docker ports (internal/collector/docker_ports.go). */
module Ports {
  import opened Decimal
  import opened Sequences
  import opened Sorting

  datatype Port = Port(hostIP: string, hostPort: nat, containerPort: nat, proto: string, published: bool)
  datatype PortChip = PortChip(name: string, published: bool)
  datatype Key = Key(host: nat, container: nat, proto: string)

  function KeyOf(p: Port): Key { Key(p.hostPort, p.containerPort, p.proto) }

  function Keys(ports: seq<Port>): seq<Key> { seq(|ports|, i requires 0 <= i < |ports| => KeyOf(ports[i])) }

  /** How the Docker collector builds a port: published means it has a host port. */
  predicate Consistent(p: Port) { p.published <==> p.hostPort != 0 }

  // ---------- the sort order ----------

  predicate TextLeq(a: string, b: string) {
    if a == [] then true
    else if b == [] then false
    else a[0] < b[0] || (a[0] == b[0] && TextLeq(a[1..], b[1..]))
  }

  predicate PortLeq(p: Port, q: Port) {
    p.containerPort < q.containerPort || (p.containerPort == q.containerPort && TextLeq(p.proto, q.proto))
  }

  /** Lexicographic order: the texts agree up to a place where a ends or has the smaller character. */
  ghost predicate Before(a: string, b: string) {
    exists k: nat :: k <= |a| && k <= |b| && a[..k] == b[..k] && (k == |a| || (k < |b| && a[k] < b[k]))
  }

  lemma {:induction false} TextLeqIsBefore(a: string, b: string)
    ensures TextLeq(a, b) <==> Before(a, b)
  {
    if a == [] || b == [] {
      assert a == [] ==> a[..0] == b[..0];
    } else if a[0] < b[0] {
      assert a[..0] == b[..0];
    } else {
      TextLeqIsBefore(a[1..], b[1..]);
      if k: nat :| k <= |a| && k <= |b| && a[..k] == b[..k] && (k == |a| || (k < |b| && a[k] < b[k])) {
        if k > 0 {
          assert a[0] == a[..k][0] && b[0] == b[..k][0];
          assert a[1..][..k - 1] == a[..k][1..] && b[1..][..k - 1] == b[..k][1..];
        }
      }
      if a[0] == b[0] && Before(a[1..], b[1..]) {
        var k: nat :| k <= |a[1..]| && k <= |b[1..]| && a[1..][..k] == b[1..][..k]
          && (k == |a[1..]| || (k < |b[1..]| && a[1..][k] < b[1..][k]));
        assert a[..k + 1] == [a[0]] + a[1..][..k] && b[..k + 1] == [b[0]] + b[1..][..k];
      }
    }
  }

  /** By container port, then by protocol. */
  ghost predicate Ascend(keys: seq<Key>) {
    forall i, j :: 0 <= i < j < |keys| ==>
      keys[i].container < keys[j].container
      || (keys[i].container == keys[j].container && Before(keys[i].proto, keys[j].proto))
  }

  lemma SortedAscend(ports: seq<Port>)
    requires Sorted(ports, PortLeq)
    ensures Ascend(Keys(ports))
  {
    hide TextLeq, Before;
    forall i, j | 0 <= i < j < |ports|
      ensures ports[i].containerPort < ports[j].containerPort
        || (ports[i].containerPort == ports[j].containerPort && Before(ports[i].proto, ports[j].proto))
    {
      assert PortLeq(ports[i], ports[j]);
      TextLeqIsBefore(ports[i].proto, ports[j].proto);
    }
  }

  lemma {:induction false} TextTotal(a: string, b: string)
    ensures TextLeq(a, b) || TextLeq(b, a)
    decreases |a|
  {
    if a != [] && b != [] { TextTotal(a[1..], b[1..]); }
  }

  lemma {:induction false} TextTransitive(a: string, b: string, c: string)
    requires TextLeq(a, b) && TextLeq(b, c)
    ensures TextLeq(a, c)
    decreases |a|
  {
    if a != [] && a[0] == b[0] && b[0] == c[0] { TextTransitive(a[1..], b[1..], c[1..]); }
  }

  lemma PortOrder()
    ensures TotalPreorder(PortLeq)
  {
    forall p, q ensures PortLeq(p, q) || PortLeq(q, p) { TextTotal(p.proto, q.proto); }
    forall p, q, r | PortLeq(p, q) && PortLeq(q, r) ensures PortLeq(p, r) {
      if p.containerPort == q.containerPort == r.containerPort { TextTransitive(p.proto, q.proto, r.proto); }
    }
  }

  // ---------- deduplication ----------

  /** p is the first of the ports with its key. */
  ghost predicate FirstOfKey(ports: seq<Port>, p: Port) {
    exists k :: 0 <= k < |ports| && ports[k] == p && forall j :: 0 <= j < k ==> KeyOf(ports[j]) != KeyOf(p)
  }

  ghost predicate DistinctKeys(ports: seq<Port>) {
    forall i, j :: 0 <= i < j < |ports| ==> KeyOf(ports[i]) != KeyOf(ports[j])
  }

  /** uniq holds, once and in any order, the first port of every key. */
  ghost predicate Deduped(ports: seq<Port>, uniq: seq<Port>) {
    && DistinctKeys(uniq)
    && (forall p :: p in uniq ==> FirstOfKey(ports, p))
    && (forall p :: p in ports ==> KeyOf(p) in Keys(uniq))
  }

  lemma InKeys(ports: seq<Port>, p: Port)
    requires p in ports
    ensures KeyOf(p) in Keys(ports)
  {
    var i :| 0 <= i < |ports| && ports[i] == p;
    assert Keys(ports)[i] == KeyOf(p);
  }

  lemma DedupedReordered(ports: seq<Port>, a: seq<Port>, b: seq<Port>)
    requires Deduped(ports, a) && multiset(a) == multiset(b)
    ensures Deduped(ports, b)
  {
    assert forall p :: p in b <==> p in multiset(b);
    assert forall p :: p in a <==> p in multiset(a);
    forall i, j | 0 <= i < j < |b| ensures KeyOf(b[i]) != KeyOf(b[j]) {
      if b[i] == b[j] {
        CountTwice(b, i, j);
        TwiceMeansPair(a, b[i]);
      } else {
        assert b[i] in a && b[j] in a;
      }
    }
    forall p | p in ports ensures KeyOf(p) in Keys(b) {
      var k :| 0 <= k < |Keys(a)| && Keys(a)[k] == KeyOf(p);
      assert a[k] in b;
      InKeys(b, a[k]);
    }
  }

  method DedupePorts(ports: seq<Port>) returns (out: seq<Port>)
    ensures Deduped(ports, out) && Sorted(out, PortLeq) && Ascend(Keys(out))
  {
    var seen: set<Key> := {};
    out := [];
    for n := 0 to |ports|
      invariant forall i :: 0 <= i < n ==> KeyOf(ports[i]) in seen
      invariant forall i :: 0 <= i < |out| ==> KeyOf(out[i]) in seen
      invariant forall k :: k in seen ==> k in Keys(out)
      invariant DistinctKeys(out)
      invariant forall p :: p in out ==> FirstOfKey(ports, p)
    {
      var k := KeyOf(ports[n]);
      if k !in seen {
        assert FirstOfKey(ports, ports[n]);
        seen := seen + {k};
        assert Keys(out + [ports[n]]) == Keys(out) + [k];
        out := out + [ports[n]];
      }
    }
    PortOrder();
    ghost var before := out;
    out := SortSlice(out, PortLeq);
    DedupedReordered(ports, before, out);
    SortedAscend(out);
  }

  // ---------- runs ----------

  /** q continues a run that has reached p: next container port, same protocol, same host offset. */
  predicate Link(p: Port, q: Port) {
    && q.proto == p.proto && q.containerPort == p.containerPort + 1
    && (q.hostPort == 0 <==> p.hostPort == 0)
    && (p.hostPort != 0 ==> q.hostPort - q.containerPort == p.hostPort - p.containerPort)
  }

  ghost predicate Chain(run: seq<Port>) {
    |run| > 0 && forall i, j :: 0 <= i && j == i + 1 && j < |run| ==> Link(run[i], run[j])
  }

  lemma ChainCons(s: seq<Port>, i: nat, j: nat)
    requires i < j < |s| && Link(s[i], s[i + 1]) && Chain(s[i + 1..j + 1])
    ensures Chain(s[i..j + 1])
  {
    hide Link;
    assert s[i..j + 1] == [s[i]] + s[i + 1..j + 1];
  }

  /** The last index of the run that starts at i. */
  function RunEnd(s: seq<Port>, i: nat): (j: nat)
    requires i < |s|
    ensures i <= j < |s| && Chain(s[i..j + 1])
    ensures j + 1 < |s| ==> !Link(s[j], s[j + 1])
    decreases |s| - i
  {
    if i + 1 < |s| && Link(s[i], s[i + 1]) then
      var j := RunEnd(s, i + 1);
      ChainCons(s, i, j);
      j
    else i
  }

  function RunsFrom(s: seq<Port>, i: nat): seq<seq<Port>>
    requires i <= |s|
    decreases |s| - i
  {
    if i == |s| then [] else [s[i..RunEnd(s, i) + 1]] + RunsFrom(s, RunEnd(s, i) + 1)
  }

  /** parts cuts s into runs, none of which could take the first port of the next one. */
  ghost predicate MaximalRuns(parts: seq<seq<Port>>, s: seq<Port>) {
    && Concat(parts) == s
    && (forall k :: 0 <= k < |parts| ==> Chain(parts[k]))
    && (forall k, m :: 0 <= k && m == k + 1 && m < |parts| ==> !Link(parts[k][|parts[k]| - 1], parts[m][0]))
  }

  lemma MaximalRunsCons(run: seq<Port>, rest: seq<seq<Port>>, tail: seq<Port>)
    requires Chain(run) && MaximalRuns(rest, tail)
    requires rest != [] ==> !Link(run[|run| - 1], rest[0][0])
    ensures MaximalRuns([run] + rest, run + tail)
  {
    var parts := [run] + rest;
    assert parts[1..] == rest;
    forall k, m | 0 <= k && m == k + 1 && m < |parts| ensures !Link(parts[k][|parts[k]| - 1], parts[m][0]) {
      if k > 0 { assert parts[k] == rest[k - 1] && parts[m] == rest[k]; }
    }
  }

  lemma NoRuns()
    ensures MaximalRuns([], [])
  {}

  lemma {:induction false} RunsAreMaximal(s: seq<Port>, i: nat)
    requires i <= |s|
    ensures MaximalRuns(RunsFrom(s, i), s[i..])
    ensures i < |s| ==> |RunsFrom(s, i)| > 0 && RunsFrom(s, i)[0] == s[i..RunEnd(s, i) + 1]
    decreases |s| - i
  {
    hide MaximalRuns, Link, Chain, RunEnd;
    if i == |s| {
      assert s[i..] == [];
      NoRuns();
    } else {
      var j := RunEnd(s, i);
      RunsAreMaximal(s, j + 1);
      MaximalRunsCons(s[i..j + 1], RunsFrom(s, j + 1), s[j + 1..]);
      assert s[i..] == s[i..j + 1] + s[j + 1..];
    }
  }

  lemma MaximalRunsUncons(parts: seq<seq<Port>>, s: seq<Port>)
    requires MaximalRuns(parts, s) && parts != []
    ensures var n := |parts[0]|;
      && n <= |s| && parts[0] == s[..n] && Chain(s[..n]) && MaximalRuns(parts[1..], s[n..])
      && (n < |s| ==> !Link(s[n - 1], s[n]))
  {
    var rest := parts[1..];
    assert s == parts[0] + Concat(rest);
    assert forall k :: 0 <= k < |rest| ==> rest[k] == parts[k + 1];
    if rest != [] {
      assert Concat(rest) == rest[0] + Concat(rest[1..]);
      assert Concat(rest)[0] == parts[1][0];
      assert !Link(parts[0][|parts[0]| - 1], parts[1][0]);
    }
  }

  lemma {:induction false} RunEndUnique(s: seq<Port>, i: nat, n: nat)
    requires i < n <= |s| && Chain(s[i..n]) && (n < |s| ==> !Link(s[n - 1], s[n]))
    ensures RunEnd(s, i) == n - 1
    decreases n - i
  {
    if i + 1 < n {
      assert s[i..n][0] == s[i] && s[i..n][1] == s[i + 1];
      assert s[i + 1..n] == s[i..n][1..];
      RunEndUnique(s, i + 1, n);
    }
  }

  /** There is only one such cutting, so the runs do not depend on how they are found. */
  lemma {:induction false} MaximalRunsUnique(s: seq<Port>, i: nat, parts: seq<seq<Port>>)
    requires i <= |s| && MaximalRuns(parts, s[i..])
    ensures parts == RunsFrom(s, i)
    decreases |s| - i
  {
    hide MaximalRuns, RunEnd;
    if parts == [] {
      NoPartsNoPorts(parts, s[i..]);
    } else {
      var n := FirstRun(s, i, parts);
      MaximalRunsUnique(s, n, parts[1..]);
      assert parts == [s[i..n]] + parts[1..];
    }
  }

  lemma NoPartsNoPorts(parts: seq<seq<Port>>, s: seq<Port>)
    requires MaximalRuns(parts, s) && parts == []
    ensures s == []
  {}

  lemma FirstRun(s: seq<Port>, i: nat, parts: seq<seq<Port>>) returns (n: nat)
    requires i <= |s| && parts != [] && MaximalRuns(parts, s[i..])
    ensures i < n <= |s| && n == RunEnd(s, i) + 1
    ensures parts[0] == s[i..n] && MaximalRuns(parts[1..], s[n..])
  {
    n := i + |parts[0]|;
    MaximalRunsUncons(parts, s[i..]);
    assert s[i..][..n - i] == s[i..n] && s[i..][n - i..] == s[n..];
    assert n < |s| ==> s[i..][n - i] == s[n];
    RunEndUnique(s, i, n);
  }

  // ---------- labels ----------

  /** The four fmt.Sprintf formats. */
  function PlainLabel(c: nat, proto: string): string { Itoa(c) + ("/" + proto) }

  function MappedLabel(h: nat, c: nat, proto: string): string { Itoa(h) + ("→" + PlainLabel(c, proto)) }

  function PlainRangeLabel(c: nat, d: nat, proto: string): string { Itoa(c) + ("-" + PlainLabel(d, proto)) }

  function MappedRangeLabel(h: nat, g: nat, c: nat, d: nat, proto: string): string {
    Itoa(h) + ("-" + (Itoa(g) + ("→" + PlainRangeLabel(c, d, proto))))
  }

  function Single(p: Port): PortChip {
    if p.published then PortChip(MappedLabel(p.hostPort, p.containerPort, p.proto), true)
    else PortChip(PlainLabel(p.containerPort, p.proto), false)
  }

  function Range(a: Port, b: Port): PortChip {
    if a.hostPort != 0
    then PortChip(MappedRangeLabel(a.hostPort, b.hostPort, a.containerPort, b.containerPort, a.proto), true)
    else PortChip(PlainRangeLabel(a.containerPort, b.containerPort, a.proto), false)
  }

  function Singles(run: seq<Port>): seq<PortChip> { seq(|run|, i requires 0 <= i < |run| => Single(run[i])) }

  function RunChips(run: seq<Port>): seq<PortChip> {
    if |run| >= 3 then [Range(run[0], run[|run| - 1])] else Singles(run)
  }

  function AllChips(parts: seq<seq<Port>>): seq<PortChip> {
    if parts == [] then [] else RunChips(parts[0]) + AllChips(parts[1..])
  }

  /** The inner scan: how far the run that starts at i reaches. */
  method ScanRun(u: seq<Port>, i: nat) returns (j: nat)
    requires i < |u|
    ensures j == RunEnd(u, i)
  {
    j := i;
    var hasOffset := u[i].hostPort != 0;
    var offset := if hasOffset then u[i].hostPort - u[i].containerPort else 0;
    while j + 1 < |u|
      invariant i <= j < |u| && RunEnd(u, j) == RunEnd(u, i)
      invariant u[j].proto == u[i].proto
      invariant hasOffset <==> u[j].hostPort != 0
      invariant hasOffset ==> u[j].hostPort - u[j].containerPort == offset
    {
      var next := u[j + 1];
      var nextHasOffset := next.hostPort != 0;
      if next.proto != u[i].proto || next.containerPort != u[j].containerPort + 1 || nextHasOffset != hasOffset {
        break;
      }
      if hasOffset && next.hostPort - next.containerPort != offset {
        break;
      }
      j := j + 1;
    }
  }

  /** The chips of the run u[i..j+1]. */
  method PrintRun(u: seq<Port>, i: nat, j: nat) returns (chips: seq<PortChip>)
    requires i <= j < |u|
    ensures chips == RunChips(u[i..j + 1])
  {
    hide PlainLabel, MappedLabel, PlainRangeLabel, MappedRangeLabel;
    chips := [];
    ghost var run := u[i..j + 1];
    if j - i + 1 >= 3 {
      var a, b := u[i], u[j];
      if a.hostPort != 0 {
        chips := [PortChip(MappedRangeLabel(a.hostPort, b.hostPort, a.containerPort, b.containerPort, a.proto), true)];
      } else {
        chips := [PortChip(PlainRangeLabel(a.containerPort, b.containerPort, a.proto), false)];
      }
    } else {
      for k := i to j + 1
        invariant chips == Singles(run[..k - i])
      {
        var p := u[k];
        assert run[..k + 1 - i] == run[..k - i] + [p];
        if p.published {
          chips := chips + [PortChip(MappedLabel(p.hostPort, p.containerPort, p.proto), true)];
        } else {
          chips := chips + [PortChip(PlainLabel(p.containerPort, p.proto), false)];
        }
      }
      assert run[..j + 1 - i] == run;
    }
  }

  lemma ChipsCons(run: seq<Port>, rest: seq<seq<Port>>)
    ensures AllChips([run] + rest) == RunChips(run) + AllChips(rest)
  {
    hide RunChips;
    assert ([run] + rest)[1..] == rest;
  }

  lemma ChipsStep(u: seq<Port>, i: nat)
    requires i < |u|
    ensures AllChips(RunsFrom(u, i)) == RunChips(u[i..RunEnd(u, i) + 1]) + AllChips(RunsFrom(u, RunEnd(u, i) + 1))
  {
    hide RunChips, RunEnd, Link, Chain, AllChips;
    ChipsCons(u[i..RunEnd(u, i) + 1], RunsFrom(u, RunEnd(u, i) + 1));
  }

  lemma NoChipsLeft(u: seq<Port>)
    ensures AllChips(RunsFrom(u, |u|)) == []
  {}

  /** uniq is some deduplicated and sorted list of the ports; which one is the sort's choice. */
  ghost predicate Prepared(ports: seq<Port>, uniq: seq<Port>) {
    Deduped(ports, uniq) && Sorted(uniq, PortLeq)
  }

  method BuildPortChips(ports: seq<Port>) returns (chips: seq<PortChip>)
    ensures exists uniq :: Prepared(ports, uniq) && chips == AllChips(RunsFrom(uniq, 0))
  {
    var uniq := DedupePorts(ports);
    assert Prepared(ports, uniq);
    hide *;
    chips := CollectChips(uniq);
  }

  method CollectChips(uniq: seq<Port>) returns (chips: seq<PortChip>)
    ensures chips == AllChips(RunsFrom(uniq, 0))
  {
    hide *;
    ghost var goal := AllChips(RunsFrom(uniq, 0));
    chips := [];
    assert [] + goal == goal;
    var i := 0;
    while i < |uniq|
      invariant i <= |uniq|
      invariant chips + AllChips(RunsFrom(uniq, i)) == goal
    {
      var j := ScanRun(uniq, i);
      var more := PrintRun(uniq, i, j);
      ChipsStep(uniq, i);
      assert chips + (more + AllChips(RunsFrom(uniq, j + 1))) == (chips + more) + AllChips(RunsFrom(uniq, j + 1));
      chips := chips + more;
      i := j + 1;
    }
    NoChipsLeft(uniq);
    assert chips + [] == chips;
  }
}
