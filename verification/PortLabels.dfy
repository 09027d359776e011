/** Reading port chips back: the compression loses nothing (internal/collector/docker_ports.go:38-98). */
module PortLabels {
  import opened Decimal
  import opened Ports
  import opened Sequences

  /** The keys host+k, container+k for k below n. */
  function Span(host: nat, container: nat, proto: string, n: nat): seq<Key> {
    seq(n, k requires 0 <= k < n => Key(if host == 0 then 0 else host + k, container + k, proto))
  }

  predicate StartsWith(s: string, c: char) { s != [] && s[0] == c }

  /** The ports a label names, in order; [] for a text that is no label, or whose two ranges differ in width. */
  function Read(name: string): seq<Key> {
    var (a, s) := TakeNumber(name);
    if StartsWith(s, '/') then [Key(0, a, s[1..])]
    else if StartsWith(s, '→') then ReadMapped(a, s[1..])
    else if StartsWith(s, '-') then ReadRangeFrom(a, s[1..])
    else []
  }

  /** What follows "host→". */
  function ReadMapped(host: nat, text: string): seq<Key> {
    var (c, s) := TakeNumber(text);
    if StartsWith(s, '/') then [Key(host, c, s[1..])] else []
  }

  /** What follows "a-". */
  function ReadRangeFrom(a: nat, text: string): seq<Key> {
    var (b, s) := TakeNumber(text);
    if a > b then []
    else if StartsWith(s, '/') then Span(0, a, s[1..], b - a + 1)
    else if StartsWith(s, '→') then ReadMappedRange(a, b - a, s[1..])
    else []
  }

  /** What follows "host-...→", when the host range is width longer than one port. */
  function ReadMappedRange(host: nat, width: nat, text: string): seq<Key> {
    var (c, s) := TakeNumber(text);
    if StartsWith(s, '-') then
      var (d, t) := TakeNumber(s[1..]);
      if StartsWith(t, '/') && d - c == width then Span(host, c, t[1..], width + 1) else []
    else []
  }

  function ReadAll(chips: seq<PortChip>): seq<Key> {
    if chips == [] then [] else Read(chips[0].name) + ReadAll(chips[1..])
  }

  /** A printed number followed by a separator is read back as that number. */
  lemma TakeBefore(n: nat, sep: char, rest: string)
    requires !IsDigit(sep)
    ensures TakeNumber(Itoa(n) + ([sep] + rest)) == (n, [sep] + rest)
    ensures ([sep] + rest)[1..] == rest
  {
    TakePrinted(n, [sep] + rest);
  }

  lemma ReadSingle(p: Port)
    requires Consistent(p)
    ensures Read(Single(p).name) == [KeyOf(p)]
  {
    hide TakeNumber;
    TakeBefore(p.containerPort, '/', p.proto);
    if p.published { TakeBefore(p.hostPort, '→', PlainLabel(p.containerPort, p.proto)); }
  }

  lemma ReadPlainRange(a: nat, b: nat, proto: string)
    requires a <= b
    ensures Read(PlainRangeLabel(a, b, proto)) == Span(0, a, proto, b - a + 1)
  {
    hide TakeNumber;
    TakeBefore(a, '-', PlainLabel(b, proto));
    TakeBefore(b, '/', proto);
  }

  lemma ReadSecondRange(host: nat, c: nat, d: nat, proto: string)
    requires c <= d
    ensures ReadMappedRange(host, d - c, PlainRangeLabel(c, d, proto)) == Span(host, c, proto, d - c + 1)
  {
    hide TakeNumber;
    TakeBefore(c, '-', PlainLabel(d, proto));
    TakeBefore(d, '/', proto);
  }

  lemma ReadPublishedRange(a: nat, b: nat, c: nat, d: nat, proto: string)
    requires a <= b && b - a == d - c
    ensures Read(MappedRangeLabel(a, b, c, d, proto)) == Span(a, c, proto, b - a + 1)
  {
    hide PlainRangeLabel, ReadMappedRange, ReadMapped, TakeNumber;
    var inner := PlainRangeLabel(c, d, proto);
    ReadSecondRange(a, c, d, proto);
    TakeBefore(a, '-', Itoa(b) + ("→" + inner));
    TakeBefore(b, '→', inner);
  }

  /** In a run both ports advance by one, so the ends determine everything between. */
  lemma {:induction false} ChainShape(run: seq<Port>, k: nat)
    requires Chain(run) && k < |run|
    ensures run[k].proto == run[0].proto && run[k].containerPort == run[0].containerPort + k
    ensures run[k].hostPort == if run[0].hostPort == 0 then 0 else run[0].hostPort + k
  {
    if k > 0 {
      ChainShape(run, k - 1);
      assert Link(run[k - 1], run[k]);
    }
  }

  lemma ReadRange(run: seq<Port>)
    requires Chain(run)
    ensures Read(Range(run[0], run[|run| - 1]).name) == Keys(run)
  {
    hide Read, MappedRangeLabel, PlainRangeLabel;
    var a, b := run[0], run[|run| - 1];
    ChainShape(run, |run| - 1);
    if a.hostPort != 0 {
      ReadPublishedRange(a.hostPort, b.hostPort, a.containerPort, b.containerPort, a.proto);
    } else {
      ReadPlainRange(a.containerPort, b.containerPort, a.proto);
    }
    forall k | 0 <= k < |run| ensures Span(a.hostPort, a.containerPort, a.proto, |run|)[k] == Keys(run)[k] {
      ChainShape(run, k);
    }
  }

  lemma {:induction false} ReadSingles(run: seq<Port>)
    requires forall p :: p in run ==> Consistent(p)
    ensures ReadAll(Singles(run)) == Keys(run)
  {
    hide Read, Single;
    if run != [] {
      ReadSingle(run[0]);
      assert Singles(run)[1..] == Singles(run[1..]);
      ReadSingles(run[1..]);
      assert Keys(run) == [KeyOf(run[0])] + Keys(run[1..]);
    }
  }

  lemma ReadRun(run: seq<Port>)
    requires Chain(run) && forall p :: p in run ==> Consistent(p)
    ensures ReadAll(RunChips(run)) == Keys(run)
  {
    hide Read, Range, Single;
    if |run| >= 3 {
      ReadRange(run);
      assert RunChips(run)[1..] == [];
    } else {
      ReadSingles(run);
    }
  }

  lemma {:induction false} ReadAllSplits(a: seq<PortChip>, b: seq<PortChip>)
    ensures ReadAll(a + b) == ReadAll(a) + ReadAll(b)
  {
    hide Read;
    if a == [] {
      assert a + b == b;
    } else {
      assert (a + b)[1..] == a[1..] + b;
      ReadAllSplits(a[1..], b);
    }
  }

  lemma {:induction false} ReadRuns(parts: seq<seq<Port>>)
    requires forall run :: run in parts ==> Chain(run)
    requires forall p :: p in Concat(parts) ==> Consistent(p)
    ensures ReadAll(AllChips(parts)) == Keys(Concat(parts))
  {
    hide Read, RunChips;
    if parts != [] {
      var run, rest := parts[0], parts[1..];
      assert Concat(parts) == run + Concat(rest);
      ReadRun(run);
      ReadRuns(rest);
      ReadAllSplits(RunChips(run), AllChips(rest));
      assert Keys(run + Concat(rest)) == Keys(run) + Keys(Concat(rest));
    }
  }

  lemma UniqCovers(ports: seq<Port>, uniq: seq<Port>)
    requires Deduped(ports, uniq)
    ensures NoDuplicates(Keys(uniq))
    ensures forall k :: k in Keys(uniq) <==> exists p :: p in ports && KeyOf(p) == k
  {
    forall k | k in Keys(uniq) ensures exists p :: p in ports && KeyOf(p) == k {
      var i :| 0 <= i < |uniq| && Keys(uniq)[i] == k;
      assert FirstOfKey(ports, uniq[i]);
    }
  }

  lemma UniqConsistent(ports: seq<Port>, uniq: seq<Port>)
    requires Deduped(ports, uniq) && forall p :: p in ports ==> Consistent(p)
    ensures forall p :: p in uniq ==> Consistent(p)
  {
    forall p | p in uniq ensures Consistent(p) { assert FirstOfKey(ports, p); }
  }

  /**
   * Whatever order the sort leaves equal ports in, and however its maximal
   * runs are found, reading all chips back gives every (host, container,
   * protocol) of the input exactly once.
   */
  lemma Lossless(ports: seq<Port>, uniq: seq<Port>, parts: seq<seq<Port>>, chips: seq<PortChip>)
    requires forall p :: p in ports ==> Consistent(p)
    requires Deduped(ports, uniq) && MaximalRuns(parts, uniq) && chips == AllChips(parts)
    ensures ReadAll(chips) == Keys(uniq)
    ensures NoDuplicates(ReadAll(chips))
    ensures forall k :: k in ReadAll(chips) <==> exists p :: p in ports && KeyOf(p) == k
  {
    hide Read, RunChips, Deduped, Keys, Link;
    UniqCovers(ports, uniq);
    UniqConsistent(ports, uniq);
    ReadRuns(parts);
  }

  /** A chip covers one port or at least three, and is marked published exactly when its ports have host ports. */
  ghost predicate GoodChip(chip: PortChip) {
    && (|Read(chip.name)| == 1 || |Read(chip.name)| >= 3)
    && forall k :: k in Read(chip.name) ==> (chip.published <==> k.host != 0)
  }

  lemma RunChipsGood(run: seq<Port>)
    requires Chain(run) && forall p :: p in run ==> Consistent(p)
    ensures forall chip :: chip in RunChips(run) ==> GoodChip(chip)
  {
    hide Read, MappedRangeLabel, PlainRangeLabel, MappedLabel, PlainLabel;
    if |run| >= 3 {
      ReadRange(run);
      forall i | 0 <= i < |run| ensures (Keys(run)[i].host != 0 <==> run[0].hostPort != 0) { ChainShape(run, i); }
    } else {
      forall chip | chip in Singles(run) ensures GoodChip(chip) {
        var i :| 0 <= i < |run| && chip == Single(run[i]);
        ReadSingle(run[i]);
      }
    }
  }

  lemma {:induction false} ChipsGood(parts: seq<seq<Port>>)
    requires forall run :: run in parts ==> Chain(run)
    requires forall p :: p in Concat(parts) ==> Consistent(p)
    ensures forall chip :: chip in AllChips(parts) ==> GoodChip(chip)
  {
    hide Read, RunChips;
    if parts != [] {
      assert Concat(parts) == parts[0] + Concat(parts[1..]);
      RunChipsGood(parts[0]);
      ChipsGood(parts[1..]);
    }
  }

  // ---------- what is compressed ----------

  /** The keys of the input hold a span of at least three, and no other key of its container ports. */
  ghost predicate Alone(ports: seq<Port>, span: seq<Key>) {
    && |span| >= 3
    && (forall k :: k in span ==> exists p :: p in ports && KeyOf(p) == k)
    && (forall p :: p in ports && span[0].container <= p.containerPort <= span[|span| - 1].container ==>
          KeyOf(p) in span)
  }

  /** Keys of the input that advance alike lie side by side in its prepared list. */
  lemma {:induction false} SideBySide(ports: seq<Port>, uniq: seq<Port>, host: nat, c: nat, proto: string, n: nat,
                                     p: nat, k: nat)
    requires Deduped(ports, uniq) && Ascend(Keys(uniq)) && Alone(ports, Span(host, c, proto, n))
    requires p < |uniq| && KeyOf(uniq[p]) == Span(host, c, proto, n)[0] && k < n
    ensures p + k < |uniq| && KeyOf(uniq[p + k]) == Span(host, c, proto, n)[k]
  {
    hide Before;
    var span := Span(host, c, proto, n);
    if k > 0 {
      SideBySide(ports, uniq, host, c, proto, n, p, k - 1);
      assert span[k] in span;
      var port :| port in ports && KeyOf(port) == span[k];
      assert span[k] in Keys(uniq);
      var q :| 0 <= q < |uniq| && Keys(uniq)[q] == span[k];
      NextIs(ports, uniq, span, p + k - 1, q, k - 1);
    }
  }

  /** Between the positions of successive keys of the span there is nothing. */
  lemma NextIs(ports: seq<Port>, uniq: seq<Port>, span: seq<Key>, j: nat, q: nat, k: nat)
    requires Deduped(ports, uniq) && Ascend(Keys(uniq)) && Alone(ports, span)
    requires forall i, m :: 0 <= i < m < |span| ==> span[m].container - span[i].container == m - i
    requires k + 1 < |span| && j < |uniq| && q < |uniq|
    requires KeyOf(uniq[j]) == span[k] && KeyOf(uniq[q]) == span[k + 1]
    ensures q == j + 1
  {
    hide Before;
    var keys := Keys(uniq);
    assert keys[j] == span[k] && keys[q] == span[k + 1];
    assert j < q;
    if j + 1 < q {
      var x := uniq[j + 1];
      assert keys[j + 1] == KeyOf(x);
      assert FirstOfKey(ports, x);
      assert KeyOf(x) in span;
      var m :| 0 <= m < |span| && span[m] == KeyOf(x);
      assert false;
    }
  }

  lemma NextRun(s: seq<Port>, i: nat)
    requires i < |s|
    ensures s[i..RunEnd(s, i) + 1] in RunsFrom(s, i)
    ensures forall run :: run in RunsFrom(s, RunEnd(s, i) + 1) ==> run in RunsFrom(s, i)
  {
    hide Link, Chain, RunEnd;
    assert RunsFrom(s, i) == [s[i..RunEnd(s, i) + 1]] + RunsFrom(s, RunEnd(s, i) + 1);
  }

  /** Ports that continue each other end up in one run. */
  lemma {:induction false} OneRun(s: seq<Port>, i: nat, p: nat, n: nat) returns (run: seq<Port>)
    requires i <= p < p + n <= |s| && forall j :: p <= j < p + n - 1 ==> Link(s[j], s[j + 1])
    ensures run in RunsFrom(s, i) && Chain(run) && |run| >= n
    ensures forall j :: p <= j < p + n ==> s[j] in run
    decreases |s| - i
  {
    hide Link, Chain, RunEnd, RunsFrom;
    var e := RunEnd(s, i);
    NextRun(s, i);
    if p > e {
      run := OneRun(s, e + 1, p, n);
    } else {
      run := s[i..e + 1];
      assert e >= p + n - 1;
      forall j | p <= j < p + n ensures s[j] in run { assert s[j] == run[j - i]; }
    }
  }

  lemma {:induction false} ChipOfRun(parts: seq<seq<Port>>, run: seq<Port>)
    requires run in parts && |run| >= 3
    ensures Range(run[0], run[|run| - 1]) in AllChips(parts)
  {
    hide Range;
    if parts[0] != run { ChipOfRun(parts[1..], run); }
  }

  /** One chip reads as all of these keys. */
  ghost predicate OneChip(chips: seq<PortChip>, keys: seq<Key>) {
    exists chip :: chip in chips && forall k :: k in keys ==> k in Read(chip.name)
  }

  /**
   * Three or more successive container ports of one protocol, unpublished or
   * with host ports that advance alike, end up in one chip, when no other key
   * has a container port in that range.
   */
  lemma Compressed(ports: seq<Port>, uniq: seq<Port>, host: nat, c: nat, proto: string, n: nat)
    requires Deduped(ports, uniq) && Ascend(Keys(uniq)) && Alone(ports, Span(host, c, proto, n))
    ensures OneChip(AllChips(RunsFrom(uniq, 0)), Span(host, c, proto, n))
  {
    hide Before, Read, Range, RunsFrom, AllChips, Alone;
    var span := Span(host, c, proto, n);
    var p := FirstOfSpan(ports, uniq, span);
    SideBySide(ports, uniq, host, c, proto, n, p, n - 1);
    forall k | 0 <= k < n ensures KeyOf(uniq[p + k]) == span[k] {
      SideBySide(ports, uniq, host, c, proto, n, p, k);
    }
    forall j | p <= j < p + n - 1 ensures Link(uniq[j], uniq[j + 1]) {
      assert KeyOf(uniq[p + (j - p)]) == span[j - p] && KeyOf(uniq[p + (j + 1 - p)]) == span[j + 1 - p];
    }
    var run := OneRun(uniq, 0, p, n);
    ChipOfRun(RunsFrom(uniq, 0), run);
    ReadRange(run);
    var chip := Range(run[0], run[|run| - 1]);
    forall k | k in span ensures k in Read(chip.name) {
      var m :| 0 <= m < n && span[m] == k;
      assert uniq[p + m] in run && KeyOf(uniq[p + m]) == k;
      InKeys(run, uniq[p + m]);
    }
  }

  lemma FirstOfSpan(ports: seq<Port>, uniq: seq<Port>, span: seq<Key>) returns (p: nat)
    requires Deduped(ports, uniq) && Alone(ports, span)
    ensures |span| >= 3 && p < |uniq| && KeyOf(uniq[p]) == span[0]
  {
    assert span[0] in span;
    var port :| port in ports && KeyOf(port) == span[0];
    assert span[0] in Keys(uniq);
    p :| 0 <= p < |uniq| && Keys(uniq)[p] == span[0];
  }

  /** The whole pipeline on the ports of a container. */
  method CompressPorts(ports: seq<Port>) returns (chips: seq<PortChip>)
    requires forall p :: p in ports ==> Consistent(p)
    ensures NoDuplicates(ReadAll(chips)) && Ascend(ReadAll(chips))
    ensures forall k :: k in ReadAll(chips) <==> exists p :: p in ports && KeyOf(p) == k
    ensures forall chip :: chip in chips ==> GoodChip(chip)
    ensures forall host, c, proto, n ::
      Alone(ports, Span(host, c, proto, n)) ==> OneChip(chips, Span(host, c, proto, n))
  {
    hide Read, RunChips, Alone, OneChip, Ascend;
    chips := BuildPortChips(ports);
    ghost var uniq :| Prepared(ports, uniq) && chips == AllChips(RunsFrom(uniq, 0));
    RunsAreMaximal(uniq, 0);
    assert uniq[0..] == uniq;
    Lossless(ports, uniq, RunsFrom(uniq, 0), chips);
    UniqConsistent(ports, uniq);
    ChipsGood(RunsFrom(uniq, 0));
    SortedAscend(uniq);
    forall host, c, proto, n | Alone(ports, Span(host, c, proto, n)) ensures OneChip(chips, Span(host, c, proto, n)) {
      Compressed(ports, uniq, host, c, proto, n);
    }
  }
}
