/** Connection edge detection over polls (internal/security/connections.go:78-108). */
module Connections {
  import opened Decimal
  import opened EventLog

  const ESTABLISHED := "01"
  const LISTEN := "0A"

  /** A line of a TCP table; `at` is what the clock shows when the watcher gets to it. */
  datatype TcpEntry = TcpEntry(loopback: bool, localPort: nat, remoteIP: string, state: string, at: int)
  datatype ConnectionEvent = ConnectionEvent(time: int, ip: string, localPort: nat)
  type Poll = seq<TcpEntry>
  type Pair = (string, nat)

  /** The map key of a connection. */
  function KeyOf(pair: Pair): string { pair.0 + ("|" + Itoa(pair.1)) }

  /** After its bar, a key holds digits only. */
  lemma DigitsAfterBar(ip: string, digits: string, i: nat)
    requires AllDigits(digits)
    ensures var s := ip + ("|" + digits);
      s[|ip|] == '|' && s[..|ip|] == ip && s[|ip| + 1..] == digits && (|ip| < i < |s| ==> s[i] != '|')
  {
    var s := ip + ("|" + digits);
    assert |ip| < i < |s| ==> s[i] == digits[i - |ip| - 1];
  }

  lemma KeysInjective(p: Pair, q: Pair)
    requires KeyOf(p) == KeyOf(q)
    ensures p == q
  {
    hide Itoa;
    DigitsAfterBar(p.0, Itoa(p.1), |q.0|);
    DigitsAfterBar(q.0, Itoa(q.1), |p.0|);
    PrintedInjective(p.1, q.1);
  }

  function KeySet(pairs: set<Pair>): set<string> { set p | p in pairs :: KeyOf(p) }

  /** The ports to watch: the configured ones, and in auto mode those that accept from outside. */
  function Watched(explicit: set<nat>, auto: bool, entries: seq<TcpEntry>): set<nat> {
    explicit + if auto then set e | e in entries && e.state == LISTEN && !e.loopback :: e.localPort else {}
  }

  predicate Matches(e: TcpEntry, watched: set<nat>) { e.state == ESTABLISHED && e.localPort in watched }

  function PairOf(e: TcpEntry): Pair { (e.remoteIP, e.localPort) }

  /** The connections a poll sees. */
  function ActivePairs(entries: seq<TcpEntry>, watched: set<nat>): set<Pair> {
    set e | e in entries && Matches(e, watched) :: PairOf(e)
  }

  /** The events of the first entries of a poll whose predecessor saw the given connections. */
  function NewEvents(entries: seq<TcpEntry>, watched: set<nat>, before: set<Pair>): seq<ConnectionEvent> {
    if entries == [] then []
    else
      var e := entries[|entries| - 1];
      NewEvents(entries[..|entries| - 1], watched, before)
      + if Matches(e, watched) && PairOf(e) !in before then [ConnectionEvent(e.at, e.remoteIP, e.localPort)] else []
  }

  /** What the last of the polls saw. */
  function LastActive(explicit: set<nat>, auto: bool, polls: seq<Poll>): set<Pair> {
    if polls == [] then {}
    else ActivePairs(polls[|polls| - 1], Watched(explicit, auto, polls[|polls| - 1]))
  }

  /** Everything a watcher has logged after the given polls. */
  function Logged(explicit: set<nat>, auto: bool, polls: seq<Poll>): seq<ConnectionEvent> {
    if polls == [] then []
    else
      var front, last := polls[..|polls| - 1], polls[|polls| - 1];
      Logged(explicit, auto, front)
      + NewEvents(last, Watched(explicit, auto, last), LastActive(explicit, auto, front))
  }

  class ConnWatcher {
    const explicitPorts: set<nat>
    const auto: bool
    const log: EventLog<ConnectionEvent>
    var prevActive: set<string>
    /** The polls so far, and what the log held when this watcher started. */
    ghost var polls: seq<Poll>
    ghost const earlier: seq<ConnectionEvent>

    ghost predicate Valid()
      reads this, log, log.file
    {
      && log.Valid()
      && log.all == earlier + Logged(explicitPorts, auto, polls)
      && prevActive == KeySet(LastActive(explicitPorts, auto, polls))
    }

    constructor (explicitPorts: set<nat>, auto: bool, log: EventLog<ConnectionEvent>)
      requires log.Valid()
      ensures Valid() && polls == [] && earlier == log.all
      ensures this.explicitPorts == explicitPorts && this.auto == auto && this.log == log
    {
      this.explicitPorts, this.auto, this.log := explicitPorts, auto, log;
      prevActive, polls, earlier := {}, [], log.all;
    }

    method DoPoll(entries: Poll)
      requires Valid()
      modifies this, log, log.file
      ensures Valid() && polls == old(polls) + [entries]
      ensures log.all == earlier + Logged(explicitPorts, auto, old(polls) + [entries])
    {
      var watched := WatchedPorts(entries);
      var active := LogNew(entries, watched, LastActive(explicitPorts, auto, polls));
      prevActive := active;
      polls := polls + [entries];
      assert polls[..|polls| - 1] == old(polls);
    }

    method WatchedPorts(entries: seq<TcpEntry>) returns (watched: set<nat>)
      ensures watched == Watched(explicitPorts, auto, entries)
    {
      watched := explicitPorts;
      if auto {
        for n := 0 to |entries|
          invariant watched == Watched(explicitPorts, auto, entries[..n])
        {
          assert entries[..n + 1] == entries[..n] + [entries[n]];
          if entries[n].state == LISTEN && !entries[n].loopback {
            watched := watched + {entries[n].localPort};
          }
        }
        assert entries[..|entries|] == entries;
      }
    }

    /** The second loop: log what the previous poll did not see, and collect what this one sees. */
    method LogNew(entries: seq<TcpEntry>, watched: set<nat>, ghost before: set<Pair>) returns (active: set<string>)
      requires log.Valid() && prevActive == KeySet(before)
      modifies log, log.file
      ensures log.Valid() && log.all == old(log.all) + NewEvents(entries, watched, before)
      ensures active == KeySet(ActivePairs(entries, watched))
    {
      active := {};
      for n := 0 to |entries|
        invariant log.Valid()
        invariant log.all == old(log.all) + NewEvents(entries[..n], watched, before)
        invariant active == KeySet(ActivePairs(entries[..n], watched))
      {
        var e := entries[n];
        ActiveGrows(entries, n, watched);
        assert entries[..n + 1][..n] == entries[..n];
        if e.state == ESTABLISHED && e.localPort in watched {
          var key := e.remoteIP + ("|" + Itoa(e.localPort));
          assert key == KeyOf(PairOf(e));
          active := active + {key};
          SeenBefore(before, PairOf(e));
          if key !in prevActive {
            log.Append(ConnectionEvent(e.at, e.remoteIP, e.localPort));
          }
        }
      }
      assert entries[..|entries|] == entries;
    }
  }

  lemma SeenBefore(before: set<Pair>, p: Pair)
    ensures KeyOf(p) in KeySet(before) <==> p in before
  {
    forall q | q in before && KeyOf(q) == KeyOf(p) ensures q == p { KeysInjective(q, p); }
  }

  lemma ActiveGrows(entries: seq<TcpEntry>, n: nat, watched: set<nat>)
    requires n < |entries|
    ensures ActivePairs(entries[..n + 1], watched)
      == ActivePairs(entries[..n], watched) + if Matches(entries[n], watched) then {PairOf(entries[n])} else {}
  {
    assert entries[..n + 1] == entries[..n] + [entries[n]];
  }

  /** The port is configured, or in auto mode something that is not loopback listens on it. */
  ghost predicate IsWatched(explicit: set<nat>, auto: bool, entries: Poll, port: nat) {
    port in explicit
    || (auto && exists l :: l in entries && l.state == "0A" && !l.loopback && l.localPort == port)
  }

  /** What the last poll saw: the established connections on watched ports, and no others. */
  lemma ActiveIff(explicit: set<nat>, auto: bool, polls: seq<Poll>, pair: Pair)
    ensures pair in LastActive(explicit, auto, polls)
      <==> polls != [] && IsWatched(explicit, auto, polls[|polls| - 1], pair.1)
           && exists e :: e in polls[|polls| - 1] && e.state == "01" && e.remoteIP == pair.0 && e.localPort == pair.1
  {
    if polls != [] {
      var last := polls[|polls| - 1];
      WatchedIff(explicit, auto, last, pair.1);
      if e :| e in last && e.state == "01" && e.remoteIP == pair.0 && e.localPort == pair.1 {
        assert PairOf(e) == pair;
      }
    }
  }

  lemma WatchedIff(explicit: set<nat>, auto: bool, entries: Poll, port: nat)
    ensures port in Watched(explicit, auto, entries) <==> IsWatched(explicit, auto, entries, port)
  {}

  // ---------- which connections are logged ----------

  /** The events about any of these connections. */
  function EventsOf(events: seq<ConnectionEvent>, about: iset<Pair>): nat {
    if events == [] then 0
    else
      var e := events[|events| - 1];
      EventsOf(events[..|events| - 1], about) + if (e.ip, e.localPort) in about then 1 else 0
  }

  /** An entry to be logged: established on a watched port, and the poll before did not see its connection. */
  predicate IsNew(e: TcpEntry, watched: set<nat>, before: set<Pair>, about: iset<Pair>) {
    Matches(e, watched) && PairOf(e) !in before && PairOf(e) in about
  }

  function NewIn(entries: seq<TcpEntry>, watched: set<nat>, before: set<Pair>, about: iset<Pair>): nat {
    if entries == [] then 0
    else
      var n := |entries| - 1;
      NewIn(entries[..n], watched, before, about) + if IsNew(entries[n], watched, before, about) then 1 else 0
  }

  /** Over a whole run: the entries about these connections in the polls where theirs is new. */
  function NewEntries(explicit: set<nat>, auto: bool, polls: seq<Poll>, about: iset<Pair>): nat {
    if polls == [] then 0
    else
      var front, last := polls[..|polls| - 1], polls[|polls| - 1];
      NewEntries(explicit, auto, front, about)
      + NewIn(last, Watched(explicit, auto, last), LastActive(explicit, auto, front), about)
  }

  lemma {:induction false} EventsOfSplits(a: seq<ConnectionEvent>, b: seq<ConnectionEvent>, about: iset<Pair>)
    ensures EventsOf(a + b, about) == EventsOf(a, about) + EventsOf(b, about)
  {
    if b == [] {
      assert a + b == a;
    } else {
      assert (a + b)[..|a + b| - 1] == a + b[..|b| - 1];
      EventsOfSplits(a, b[..|b| - 1], about);
    }
  }

  lemma {:induction false} PollEvents(entries: seq<TcpEntry>, watched: set<nat>, before: set<Pair>, about: iset<Pair>)
    ensures EventsOf(NewEvents(entries, watched, before), about) == NewIn(entries, watched, before, about)
  {
    if entries != [] {
      var front, e := entries[..|entries| - 1], entries[|entries| - 1];
      PollEvents(front, watched, before, about);
      if Matches(e, watched) && PairOf(e) !in before {
        EventsOfSplits(NewEvents(front, watched, before), [ConnectionEvent(e.at, e.remoteIP, e.localPort)], about);
      } else {
        assert NewEvents(entries, watched, before) == NewEvents(front, watched, before);
      }
    }
  }

  /** Whichever connections one asks about, the events are as many as their new entries. */
  lemma {:induction false} LoggedNewEntries(explicit: set<nat>, auto: bool, polls: seq<Poll>, about: iset<Pair>)
    ensures EventsOf(Logged(explicit, auto, polls), about) == NewEntries(explicit, auto, polls, about)
  {
    if polls != [] {
      var front, last := polls[..|polls| - 1], polls[|polls| - 1];
      LoggedNewEntries(explicit, auto, front, about);
      var watched, before := Watched(explicit, auto, last), LastActive(explicit, auto, front);
      EventsOfSplits(Logged(explicit, auto, front), NewEvents(last, watched, before), about);
      PollEvents(last, watched, before, about);
    }
  }

  /** An event of this poll: an established entry on a watched port whose connection the poll before did not see. */
  ghost predicate ComesFrom(ev: ConnectionEvent, explicit: set<nat>, auto: bool, before: set<Pair>, entries: Poll) {
    && IsWatched(explicit, auto, entries, ev.localPort) && (ev.ip, ev.localPort) !in before
    && exists e :: e in entries && e.state == "01" && ev == ConnectionEvent(e.at, e.remoteIP, e.localPort)
  }

  lemma {:induction false} NewComeFrom(explicit: set<nat>, auto: bool, before: set<Pair>, entries: Poll, n: nat,
                                       ev: ConnectionEvent)
    requires n <= |entries| && ev in NewEvents(entries[..n], Watched(explicit, auto, entries), before)
    ensures ComesFrom(ev, explicit, auto, before, entries)
  {
    if n > 0 {
      assert entries[..n][..n - 1] == entries[..n - 1];
      if ev in NewEvents(entries[..n - 1], Watched(explicit, auto, entries), before) {
        NewComeFrom(explicit, auto, before, entries, n - 1, ev);
      } else {
        assert entries[n - 1] in entries;
        WatchedIff(explicit, auto, entries, ev.localPort);
      }
    }
  }

  /** Nothing else is ever logged. */
  lemma {:induction false} LoggedComesFrom(explicit: set<nat>, auto: bool, polls: seq<Poll>, ev: ConnectionEvent)
    returns (i: nat)
    requires ev in Logged(explicit, auto, polls)
    ensures i < |polls| && ComesFrom(ev, explicit, auto, LastActive(explicit, auto, polls[..i]), polls[i])
  {
    var last := |polls| - 1;
    if ev in Logged(explicit, auto, polls[..last]) {
      i := LoggedComesFrom(explicit, auto, polls[..last], ev);
      assert polls[..last][..i] == polls[..i];
    } else {
      i := last;
      assert polls[last][..|polls[last]|] == polls[last];
      NewComeFrom(explicit, auto, LastActive(explicit, auto, polls[..last]), polls[last], |polls[last]|, ev);
    }
  }

  // ---------- one connection ----------

  function EntriesOf(entries: seq<TcpEntry>, pair: Pair): nat {
    if entries == [] then 0
    else
      var e := entries[|entries| - 1];
      EntriesOf(entries[..|entries| - 1], pair) + if e.state == ESTABLISHED && PairOf(e) == pair then 1 else 0
  }

  /** Over a whole run: the entries of a connection in just those polls that see it when the poll before did not. */
  function Edges(explicit: set<nat>, auto: bool, polls: seq<Poll>, pair: Pair): nat {
    if polls == [] then 0
    else
      var front := polls[..|polls| - 1];
      Edges(explicit, auto, front, pair)
      + if pair in LastActive(explicit, auto, polls) && pair !in LastActive(explicit, auto, front)
        then EntriesOf(polls[|polls| - 1], pair) else 0
  }

  lemma {:induction false} EntriesNew(entries: seq<TcpEntry>, watched: set<nat>, before: set<Pair>, pair: Pair)
    ensures NewIn(entries, watched, before, iset{pair})
      == if pair.1 in watched && pair !in before then EntriesOf(entries, pair) else 0
    ensures pair in ActivePairs(entries, watched) <==> pair.1 in watched && EntriesOf(entries, pair) > 0
  {
    if entries != [] {
      EntriesNew(entries[..|entries| - 1], watched, before, pair);
      ActiveGrows(entries, |entries| - 1, watched);
      assert entries[..|entries|] == entries;
    }
  }

  /**
   * A connection is logged in exactly the polls that see it right after one
   * that did not, once per established entry it has there.
   */
  lemma {:induction false} LoggedOnEdges(explicit: set<nat>, auto: bool, polls: seq<Poll>, pair: Pair)
    ensures EventsOf(Logged(explicit, auto, polls), iset{pair}) == Edges(explicit, auto, polls, pair)
  {
    LoggedNewEntries(explicit, auto, polls, iset{pair});
    if polls != [] {
      var front, last := polls[..|polls| - 1], polls[|polls| - 1];
      LoggedOnEdges(explicit, auto, front, pair);
      LoggedNewEntries(explicit, auto, front, iset{pair});
      EntriesNew(last, Watched(explicit, auto, last), LastActive(explicit, auto, front), pair);
    }
  }

  // ---------- logged once or more often ----------

  /** The connections of an address, over all ports. */
  ghost function From(ip: string): iset<Pair> { iset pair: Pair | pair.0 == ip }

  /** Entry n of poll i is new. */
  ghost predicate NewAt(explicit: set<nat>, auto: bool, polls: seq<Poll>, about: iset<Pair>, i: nat, n: nat) {
    i < |polls| && n < |polls[i]|
    && IsNew(polls[i][n], Watched(explicit, auto, polls[i]), LastActive(explicit, auto, polls[..i]), about)
  }

  ghost predicate AtMostOneNew(explicit: set<nat>, auto: bool, polls: seq<Poll>, about: iset<Pair>) {
    forall i: nat, n: nat, j: nat, m: nat ::
      NewAt(explicit, auto, polls, about, i, n) && NewAt(explicit, auto, polls, about, j, m) ==> i == j && n == m
  }

  lemma {:induction false} NoneNewIn(entries: seq<TcpEntry>, watched: set<nat>, before: set<Pair>, about: iset<Pair>)
    ensures NewIn(entries, watched, before, about) == 0
      <==> forall n :: 0 <= n < |entries| ==> !IsNew(entries[n], watched, before, about)
  {
    if entries != [] { NoneNewIn(entries[..|entries| - 1], watched, before, about); }
  }

  lemma {:induction false} OneNewIn(entries: seq<TcpEntry>, watched: set<nat>, before: set<Pair>, about: iset<Pair>)
    ensures NewIn(entries, watched, before, about) <= 1
      <==> forall n, m :: 0 <= n < m < |entries| ==>
             !(IsNew(entries[n], watched, before, about) && IsNew(entries[m], watched, before, about))
  {
    if entries != [] {
      hide IsNew;
      OneNewIn(entries[..|entries| - 1], watched, before, about);
      NoneNewIn(entries[..|entries| - 1], watched, before, about);
    }
  }

  /** The new entries of a run are those before its last poll, and those of the last poll. */
  lemma NewAtLast(explicit: set<nat>, auto: bool, polls: seq<Poll>, about: iset<Pair>)
    requires polls != []
    ensures var last := |polls| - 1;
      var watched, before := Watched(explicit, auto, polls[last]), LastActive(explicit, auto, polls[..last]);
      && (forall i: nat, n: nat :: NewAt(explicit, auto, polls[..last], about, i, n) ==>
            NewAt(explicit, auto, polls, about, i, n) && i < last)
      && (forall i: nat, n: nat :: NewAt(explicit, auto, polls, about, i, n) ==>
            if i < last then NewAt(explicit, auto, polls[..last], about, i, n)
            else i == last && n < |polls[last]| && IsNew(polls[last][n], watched, before, about))
      && (forall n :: 0 <= n < |polls[last]| && IsNew(polls[last][n], watched, before, about) ==>
            NewAt(explicit, auto, polls, about, last, n))
  {
    hide IsNew, LastActive, Watched;
    var last := |polls| - 1;
    assert forall i: nat :: i < last ==> polls[..last][..i] == polls[..i];
  }

  lemma {:induction false} NoneNew(explicit: set<nat>, auto: bool, polls: seq<Poll>, about: iset<Pair>)
    ensures NewEntries(explicit, auto, polls, about) == 0
      <==> forall i: nat, n: nat :: !NewAt(explicit, auto, polls, about, i, n)
  {
    if polls != [] {
      hide NewAt, IsNew, LastActive, Watched, NewIn;
      var last := |polls| - 1;
      NoneNew(explicit, auto, polls[..last], about);
      NoneNewIn(polls[last], Watched(explicit, auto, polls[last]), LastActive(explicit, auto, polls[..last]), about);
      NewAtLast(explicit, auto, polls, about);
    }
  }

  lemma {:induction false} OneNew(explicit: set<nat>, auto: bool, polls: seq<Poll>, about: iset<Pair>)
    ensures NewEntries(explicit, auto, polls, about) <= 1 <==> AtMostOneNew(explicit, auto, polls, about)
  {
    if polls != [] {
      hide NewAt, IsNew, LastActive, Watched, NewIn;
      var last := |polls| - 1;
      var front := polls[..last];
      var watched, before := Watched(explicit, auto, polls[last]), LastActive(explicit, auto, front);
      OneNew(explicit, auto, front, about);
      NoneNew(explicit, auto, front, about);
      NoneNewIn(polls[last], watched, before, about);
      OneNewIn(polls[last], watched, before, about);
      NewAtLast(explicit, auto, polls, about);
    }
  }

  /**
   * Any connections, such as those From(ip), are logged at most once in a run
   * exactly when the run has at most one new entry of them, over all ports.
   */
  lemma LoggedOnceIff(explicit: set<nat>, auto: bool, polls: seq<Poll>, about: iset<Pair>)
    ensures EventsOf(Logged(explicit, auto, polls), about) <= 1 <==> AtMostOneNew(explicit, auto, polls, about)
  {
    LoggedNewEntries(explicit, auto, polls, about);
    OneNew(explicit, auto, polls, about);
  }

  /** A connection that any poll sees is logged, and so is its address. */
  lemma {:induction false} SeenIsLogged(explicit: set<nat>, auto: bool, polls: seq<Poll>, about: iset<Pair>,
                                       pair: Pair, i: nat)
    requires i < |polls| && pair in LastActive(explicit, auto, polls[..i + 1]) && pair in about
    ensures EventsOf(Logged(explicit, auto, polls), about) > 0
  {
    if pair in LastActive(explicit, auto, polls[..i]) {
      SeenIsLogged(explicit, auto, polls, about, pair, i - 1);
    } else {
      var n :| 0 <= n < |polls[i]|
        && Matches(polls[i][n], Watched(explicit, auto, polls[i])) && PairOf(polls[i][n]) == pair;
      assert NewAt(explicit, auto, polls, about, i, n);
      LoggedNewEntries(explicit, auto, polls, about);
      NoneNew(explicit, auto, polls, about);
    }
  }

  /**
   * One address logged twice: two entries of a connection in one poll; a
   * connection seen, gone and seen again; and two watched ports in one poll,
   * although either connection is logged once.
   */
  lemma LoggedTwice(e: TcpEntry, port: nat) returns (twins: seq<Poll>, again: seq<Poll>, ports: seq<Poll>)
    requires e.state == ESTABLISHED && e.localPort != port
    ensures twins == [[e, e]] && again == [[e], [], [e]] && ports == [[e, e.(localPort := port)]]
    ensures EventsOf(Logged({e.localPort}, false, twins), From(e.remoteIP)) == 2
    ensures EventsOf(Logged({e.localPort}, false, again), From(e.remoteIP)) == 2
    ensures var logged := Logged({e.localPort, port}, false, ports);
      && EventsOf(logged, From(e.remoteIP)) == 2
      && EventsOf(logged, iset{(e.remoteIP, e.localPort)}) == EventsOf(logged, iset{(e.remoteIP, port)}) == 1
  {
    twins, again, ports := [[e, e]], [[e], [], [e]], [[e, e.(localPort := port)]];
    OnePoll({e.localPort}, [e, e], From(e.remoteIP));
    SeenAgain(e);
    OnePoll({e.localPort, port}, ports[0], From(e.remoteIP));
    OnePoll({e.localPort, port}, ports[0], iset{(e.remoteIP, e.localPort)});
    OnePoll({e.localPort, port}, ports[0], iset{(e.remoteIP, port)});
  }

  lemma OnePoll(watched: set<nat>, entries: Poll, about: iset<Pair>)
    requires |entries| == 2
    ensures EventsOf(Logged(watched, false, [entries]), about)
      == (if IsNew(entries[0], watched, {}, about) then 1 else 0)
         + if IsNew(entries[1], watched, {}, about) then 1 else 0
  {
    LoggedNewEntries(watched, false, [entries], about);
    assert Watched(watched, false, entries) == watched;
    assert [entries][..0] == [] && entries[..1] == [entries[0]] && entries[..1][..0] == [];
    assert NewIn(entries[..1], watched, {}, about) == if IsNew(entries[0], watched, {}, about) then 1 else 0;
  }

  lemma SeenAgain(e: TcpEntry)
    requires e.state == ESTABLISHED
    ensures EventsOf(Logged({e.localPort}, false, [[e], [], [e]]), From(e.remoteIP)) == 2
  {
    var watched, about, again := {e.localPort}, From(e.remoteIP), [[e], [], [e]];
    LoggedNewEntries(watched, false, again, about);
    assert forall entries :: Watched(watched, false, entries) == watched;
    assert again[..2] == [[e], []] && [[e], []][..1] == [[e]] && [[e]][..0] == [] && [e][..0] == [];
    assert NewIn([e], watched, {}, about) == 1;
    assert NewEntries(watched, false, [[e]], about) == 1;
    assert NewEntries(watched, false, [[e], []], about) == 1;
    assert LastActive(watched, false, [[e], []]) == {};
  }
}
