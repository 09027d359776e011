/** The capped event log that is rewritten on every append (internal/security/eventlog.go). */
module EventLog {
  import opened Sequences

  /** The file behind a log: its lines, each the encoding of one event. It outlives the process. */
  class File<T> {
    var lines: seq<T>

    constructor ()
      ensures lines == []
    {
      lines := [];
    }
  }

  class EventLog<T> {
    const file: File<T>
    const cap: nat
    var events: seq<T>
    /** Every event ever appended, by this process or by earlier ones with the same file. */
    ghost var all: seq<T>

    ghost predicate Valid()
      reads this, file
    {
      events == LastN(all, cap) && file.lines == events
    }

    /** NewEventLog: on a file that an earlier log with the same capacity left, it carries on from there. */
    constructor (file: File<T>, cap: nat, ghost all: seq<T>)
      requires file.lines == LastN(all, cap)
      ensures Valid() && this.file == file && this.cap == cap && this.all == all
    {
      this.file, this.cap := file, cap;
      events := file.lines;
      this.all := all;
    }

    method Append(e: T)
      requires Valid()
      modifies this, file
      ensures Valid() && all == old(all) + [e]
    {
      LastNAppend(all, e, cap);
      events := events + [e];
      if |events| > cap {
        events := events[|events| - cap..];
      }
      Persist();
      all := all + [e];
    }

    method Persist()
      modifies file
      ensures file.lines == events
    {
      file.lines := events;
    }

    /** The last n events ever appended, newest first, or all that are kept when n <= 0 or n is too large. */
    method Recent(n: int) returns (out: seq<T>)
      requires Valid()
      ensures |out| == if n <= 0 || n > |LastN(all, cap)| then |LastN(all, cap)| else n
      ensures |out| <= |all| && out == Reverse(all[|all| - |out|..])
    {
      var m := if n <= 0 || n > |events| then |events| else n;
      out := [];
      for i := 0 to m
        invariant |out| == i
        invariant forall k :: 0 <= k < i ==> out[k] == all[|all| - 1 - k]
      {
        out := out + [events[|events| - 1 - i]];
      }
    }
  }

  /** A process that stops after any append and starts again on the same file keeps the same log. */
  method Restart<T>(log: EventLog<T>) returns (next: EventLog<T>)
    requires log.Valid()
    ensures next.Valid() && fresh(next)
    ensures next.all == log.all && next.events == log.events && next.file == log.file && next.cap == log.cap
  {
    next := new EventLog(log.file, log.cap, log.all);
  }
}
