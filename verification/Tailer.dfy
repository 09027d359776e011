/** Tailing the sshd log over rotation, truncation and restarts (internal/security/ssh.go:28-128). */
module Tailer {
  import opened EventLog
  import opened Wrappers

  /** A file as one poll finds it: inode 0 means the platform has none to tell. */
  datatype Image = Image(inode: nat, content: string)

  /**
   * What one poll runs into: the files that exist, whether the log can be
   * opened, and how many of the wanted bytes the one read returns.
   */
  datatype World = World(files: map<string, Image>, opens: bool, readable: nat)

  /** Where the watcher stands: path "" while no log has been found. */
  datatype Cursor = Cursor(path: string, offset: nat, inode: nat)

  const CANDIDATES: seq<string> := ["/var/log/auth.log", "/var/log/secure"]

  function Min(a: nat, b: nat): nat { if a <= b then a else b }

  /** The path to follow: the configured one, or the first candidate that exists. */
  function PathFor(explicitPath: string, files: map<string, Image>): string {
    if explicitPath != "" then explicitPath
    else if CANDIDATES[0] in files then CANDIDATES[0]
    else if CANDIDATES[1] in files then CANDIDATES[1]
    else ""
  }

  /** The cursor once a log has been looked for: a log just found is followed from its current end. */
  function Found(c: Cursor, explicitPath: string, files: map<string, Image>): Cursor {
    if c.path != "" then c
    else
      var p := PathFor(explicitPath, files);
      if p == "" || p !in files then c else Cursor(p, |files[p].content|, files[p].inode)
  }

  /** The cursor once rotation (another inode) and truncation (a smaller file) have been looked for. */
  function Rewound(c: Cursor, f: Image): Cursor {
    if f.inode != 0 && f.inode != c.inode then c.(offset := 0, inode := f.inode)
    else if |f.content| < c.offset then c.(offset := 0)
    else c
  }

  /** What one poll reads: the cursor it leaves and the chunk it hands to the line parser. */
  function Poll(c: Cursor, explicitPath: string, w: World): (Cursor, string) {
    var c1 := Found(c, explicitPath, w.files);
    if c1.path == "" then (c1, "")
    else if c1.path !in w.files then (c1.(path := ""), "")
    else
      var f := w.files[c1.path];
      var c2 := Rewound(c1, f);
      if |f.content| <= c2.offset || !w.opens then (c2, "")
      else
        var n := Min(w.readable, |f.content| - c2.offset);
        (c2.(offset := c2.offset + n), f.content[c2.offset..c2.offset + n])
  }

  // ---------- lines and events ----------

  /** The lines of a text that goes on with one more character. */
  function AddChar(lines: seq<string>, c: char): (l: seq<string>)
    requires |lines| > 0
    ensures |l| > 0
  {
    if c == '\n' then lines + [""] else lines[..|lines| - 1] + [lines[|lines| - 1] + [c]]
  }

  /** strings.Split(s, "\n"). */
  function Lines(s: string): (l: seq<string>)
    ensures |l| > 0
  {
    if s == [] then [""] else AddChar(Lines(s[..|s| - 1]), s[|s| - 1])
  }

  /** The events of some lines, in order. */
  function Parsed<E>(lines: seq<string>, parse: string -> Option<E>): seq<E> {
    if lines == [] then []
    else
      var e := parse(lines[|lines| - 1]);
      Parsed(lines[..|lines| - 1], parse) + if e.Some? then [e.value] else []
  }

  function Events<E>(text: string, parse: string -> Option<E>): seq<E> { Parsed(Lines(text), parse) }

  class SSHWatcher<E> {
    const explicitPath: string
    const parse: string -> Option<E>
    const log: EventLog<E>
    var path: string
    var offset: nat
    var inode: nat
    /** What the polls so far found, and what the log held when this watcher started. */
    ghost var worlds: seq<World>
    ghost const earlier: seq<E>

    ghost predicate Valid()
      reads this, log, log.file
    {
      && log.Valid() && parse("").None?
      && Cursor(path, offset, inode) == Follow(explicitPath, worlds).cursor
      && log.all == earlier + Gained(explicitPath, worlds, parse)
    }

    constructor (explicitPath: string, parse: string -> Option<E>, log: EventLog<E>)
      requires log.Valid() && parse("").None?
      ensures Valid() && worlds == [] && earlier == log.all
      ensures this.explicitPath == explicitPath && this.parse == parse && this.log == log
    {
      this.explicitPath, this.parse, this.log := explicitPath, parse, log;
      path, offset, inode := "", 0, 0;
      worlds, earlier := [], log.all;
    }

    /** One tick: cursor and log are what the whole sequence of polls says. */
    method DoPoll(w: World)
      requires Valid()
      modifies this, log, log.file
      ensures Valid() && worlds == old(worlds) + [w]
      ensures Cursor(path, offset, inode) == Follow(explicitPath, old(worlds) + [w]).cursor
      ensures log.all == earlier + Gained(explicitPath, old(worlds) + [w], parse)
    {
      hide Events, Follow, Gained, Poll, Parsed, Lines;
      FollowPolls(explicitPath, worlds, w, parse);
      var chunk := ReadNew(w);
      LogLines(chunk);
      worlds := worlds + [w];
    }

    /** What is new in the log file; "" when there is no file or nothing to read. */
    method ReadNew(w: World) returns (chunk: string)
      modifies `path, `offset, `inode
      ensures (Cursor(path, offset, inode), chunk) == Poll(old(Cursor(path, offset, inode)), explicitPath, w)
    {
      if path == "" {
        var ok := ResolvePath(w.files);
        if !ok { return ""; }
      }
      if path !in w.files {
        path := "";
        return "";
      }
      var info := w.files[path];
      if info.inode != 0 && info.inode != inode {
        offset := 0;
        inode := info.inode;
      } else if |info.content| < offset {
        offset := 0;
      }
      if |info.content| <= offset { return ""; }
      if !w.opens { return ""; }
      var n := Min(w.readable, |info.content| - offset);
      chunk := info.content[offset..offset + n];
      offset := offset + n;
    }

    method LogLines(chunk: string)
      requires log.Valid()
      modifies log, log.file
      ensures log.Valid() && log.all == old(log.all) + Events(chunk, parse)
    {
      var lines := Lines(chunk);
      for i := 0 to |lines|
        invariant log.Valid() && log.all == old(log.all) + Parsed(lines[..i], parse)
      {
        assert lines[..i + 1][..i] == lines[..i];
        var e := parse(lines[i]);
        if e.Some? { log.Append(e.value); }
      }
      assert lines[..|lines|] == lines;
    }

    /** Find the log, if it is there, and start at its current end. */
    method ResolvePath(files: map<string, Image>) returns (ok: bool)
      requires path == ""
      modifies `path, `offset, `inode
      ensures Cursor(path, offset, inode) == Found(old(Cursor(path, offset, inode)), explicitPath, files)
      ensures ok <==> path != ""
    {
      var p := explicitPath;
      if p == "" {
        for i := 0 to |CANDIDATES|
          invariant p == ""
          invariant forall k :: 0 <= k < i ==> CANDIDATES[k] !in files
        {
          if CANDIDATES[i] in files {
            p := CANDIDATES[i];
            break;
          }
        }
      }
      if p == "" || p !in files { return false; }
      path := p;
      offset := |files[p].content|;
      inode := files[p].inode;
      return true;
    }
  }

  // ---------- every byte of a generation, once ----------

  /**
   * A run seen from outside: the cursor, the content last found at its path,
   * where reading of the present generation of the log began, and the chunks
   * read of it since. A generation begins when the log is found, rotated to
   * another inode, or found shorter than what was already read.
   */
  datatype Progress = Progress(cursor: Cursor, seen: string, start: nat, chunks: seq<string>)

  function Joined(chunks: seq<string>): string {
    if chunks == [] then "" else Joined(chunks[..|chunks| - 1]) + chunks[|chunks| - 1]
  }

  function Track(p: Progress, explicitPath: string, w: World): Progress {
    var c1 := Found(p.cursor, explicitPath, w.files);
    var (c, chunk) := Poll(p.cursor, explicitPath, w);
    if c.path == "" then Progress(c, "", 0, [])
    else
      var f := w.files[c1.path];
      if p.cursor.path == "" || Rewound(c1, f) != c1 then Progress(c, f.content, Rewound(c1, f).offset, [chunk])
      else Progress(c, f.content, p.start, p.chunks + [chunk])
  }

  function Follow(explicitPath: string, worlds: seq<World>): Progress {
    if worlds == [] then Progress(Cursor("", 0, 0), "", 0, [])
    else Track(Follow(explicitPath, worlds[..|worlds| - 1]), explicitPath, worlds[|worlds| - 1])
  }

  /** The events of the chunks read by the given polls. */
  ghost function Gained<E>(explicitPath: string, worlds: seq<World>, parse: string -> Option<E>): seq<E> {
    if worlds == [] then []
    else
      var front, last := worlds[..|worlds| - 1], worlds[|worlds| - 1];
      Gained(explicitPath, front, parse) + Events(Poll(Follow(explicitPath, front).cursor, explicitPath, last).1, parse)
  }

  /** One more poll moves the cursor and adds the events of its chunk. */
  lemma FollowPolls<E>(explicitPath: string, worlds: seq<World>, w: World, parse: string -> Option<E>)
    ensures var (c, chunk) := Poll(Follow(explicitPath, worlds).cursor, explicitPath, w);
      && Follow(explicitPath, worlds + [w]).cursor == c
      && Gained(explicitPath, worlds + [w], parse) == Gained(explicitPath, worlds, parse) + Events(chunk, parse)
  {
    hide Events, Poll, Found, Rewound;
    assert (worlds + [w])[..|worlds|] == worlds;
  }

  /** What changed at the path since the last poll shows, or is an append. */
  ghost predicate ShowsOrAppends(p: Progress, w: World) {
    p.cursor.path != "" && p.cursor.path in w.files ==>
      var f := w.files[p.cursor.path];
      Rewound(p.cursor, f) != p.cursor || p.seen <= f.content
  }

  /** The generation has been read without a gap and without a repeat from its start to the cursor. */
  ghost predicate ReadOnce(p: Progress) {
    p.cursor.path != "" ==>
      p.start <= p.cursor.offset <= |p.seen| && Joined(p.chunks) == p.seen[p.start..p.cursor.offset]
  }

  lemma TrackReadsOnce(p: Progress, explicitPath: string, w: World)
    requires ReadOnce(p) && ShowsOrAppends(p, w)
    ensures ReadOnce(Track(p, explicitPath, w))
  {
    var c1 := Found(p.cursor, explicitPath, w.files);
    var chunk := Poll(p.cursor, explicitPath, w).1;
    assert [chunk][..0] == [] && (p.chunks + [chunk])[..|p.chunks|] == p.chunks;
    if c1.path != "" && c1.path in w.files && p.cursor.path != "" {
      var f := w.files[c1.path];
      var c := Poll(p.cursor, explicitPath, w).0;
      if Rewound(c1, f) == c1 {
        assert p.seen[p.start..c1.offset] == f.content[p.start..c1.offset];
        assert f.content[p.start..c1.offset] + chunk == f.content[p.start..c.offset];
      }
    }
  }

  /**
   * Whatever polls find, however short their reads, what has been read of the
   * present generation is its content from where reading began up to the cursor.
   */
  lemma {:induction false} GenerationReadOnce(explicitPath: string, worlds: seq<World>)
    requires forall k :: 0 <= k < |worlds| ==> ShowsOrAppends(Follow(explicitPath, worlds[..k]), worlds[k])
    ensures ReadOnce(Follow(explicitPath, worlds))
  {
    if worlds != [] {
      var front, last := worlds[..|worlds| - 1], worlds[|worlds| - 1];
      forall k | 0 <= k < |front| ensures ShowsOrAppends(Follow(explicitPath, front[..k]), front[k]) {
        assert front[..k] == worlds[..k];
        assert ShowsOrAppends(Follow(explicitPath, worlds[..k]), worlds[k]);
      }
      GenerationReadOnce(explicitPath, front);
      assert ShowsOrAppends(Follow(explicitPath, worlds[..|front|]), worlds[|front|]);
      TrackReadsOnce(Follow(explicitPath, front), explicitPath, last);
    }
  }

  // ---------- where a new log is read from ----------

  /** The log followed after some polls: found by name, kept while it exists, "" when the last poll found none. */
  ghost function Watched(explicitPath: string, worlds: seq<World>): string {
    if worlds == [] then ""
    else
      var before, files := Watched(explicitPath, worlds[..|worlds| - 1]), worlds[|worlds| - 1].files;
      var p := if before != "" then before else PathFor(explicitPath, files);
      if p in files then p else ""
  }

  /** The inode last told of the log followed, since it was found. */
  ghost function LastInode(explicitPath: string, worlds: seq<World>): nat {
    var p := Watched(explicitPath, worlds);
    if p == "" then 0
    else
      var inode := worlds[|worlds| - 1].files[p].inode;
      if inode != 0 then inode else LastInode(explicitPath, worlds[..|worlds| - 1])
  }

  lemma {:induction false} FollowsWatched(explicitPath: string, worlds: seq<World>)
    ensures var p := Follow(explicitPath, worlds);
      && p.cursor.path == Watched(explicitPath, worlds)
      && (p.cursor.path != "" ==> p.cursor.inode == LastInode(explicitPath, worlds) && p.chunks != [])
  {
    if worlds != [] { FollowsWatched(explicitPath, worlds[..|worlds| - 1]); }
  }

  /** A configured log is lost exactly when the last poll did not find it. */
  lemma ConfiguredWatched(path: string, worlds: seq<World>)
    requires path != "" && worlds != []
    ensures Watched(path, worlds) == if path in worlds[|worlds| - 1].files then path else ""
  {
    WatchedIsConfigured(path, worlds[..|worlds| - 1]);
  }

  lemma {:induction false} WatchedIsConfigured(path: string, worlds: seq<World>)
    requires path != ""
    ensures Watched(path, worlds) in {"", path}
  {
    if worlds != [] { WatchedIsConfigured(path, worlds[..|worlds| - 1]); }
  }

  /** A log that is looked for is that of Debian, or that of Red Hat if there is no other. */
  lemma LooksInOrder(worlds: seq<World>, w: World)
    requires Watched("", worlds) == ""
    ensures Watched("", worlds + [w])
      == if "/var/log/auth.log" in w.files then "/var/log/auth.log"
         else if "/var/log/secure" in w.files then "/var/log/secure" else ""
  {
    assert (worlds + [w])[..|worlds|] == worlds;
  }

  /** A log that is looked for is followed as if it were configured, when there is only one candidate. */
  lemma {:induction false} OnlyCandidate(path: string, worlds: seq<World>)
    requires path in CANDIDATES
    requires forall w, p :: w in worlds && p in CANDIDATES && p in w.files ==> p == path
    ensures Follow("", worlds) == Follow(path, worlds)
  {
    if worlds != [] {
      var front, last := worlds[..|worlds| - 1], worlds[|worlds| - 1];
      hide Track;
      OnlyCandidate(path, front);
      FoundAlike(Follow(path, front), path, last);
    }
  }

  lemma FoundAlike(p: Progress, path: string, w: World)
    requires path in CANDIDATES
    requires forall q :: q in CANDIDATES && q in w.files ==> q == path
    ensures Track(p, "", w) == Track(p, path, w)
  {
    hide Rewound;
    assert CANDIDATES[0] in CANDIDATES && CANDIDATES[1] in CANDIDATES;
    assert path != "";
    assert Found(p.cursor, "", w.files) == Found(p.cursor, path, w.files);
  }

  /** This poll finds a log that was lost, one with another inode, or one shorter than what was read. */
  ghost predicate NewLog(explicitPath: string, worlds: seq<World>, w: World) {
    var p := Watched(explicitPath, worlds + [w]);
    p != "" && p in w.files && (
      || Watched(explicitPath, worlds) == ""
      || (w.files[p].inode != 0 && w.files[p].inode != LastInode(explicitPath, worlds))
      || |w.files[p].content| < Follow(explicitPath, worlds).cursor.offset)
  }

  /**
   * A new log is read from its start if the watcher followed one at the poll
   * before; otherwise it is read from its end, and what it holds by then is
   * skipped.
   */
  lemma NewLogStart(explicitPath: string, worlds: seq<World>, w: World)
    requires NewLog(explicitPath, worlds, w)
    ensures var q, content := Follow(explicitPath, worlds + [w]), w.files[Watched(explicitPath, worlds + [w])].content;
      && q.seen == content
      && q.start == (if Watched(explicitPath, worlds) != "" then 0 else |content|) <= q.cursor.offset <= |content|
      && Joined(q.chunks) == content[q.start..q.cursor.offset]
      && (q.start == 0 <==> Watched(explicitPath, worlds) != "" || content == "")
      && (w.opens && w.readable >= |content| ==> q.cursor.offset == |content|)
  {
    var next := worlds + [w];
    assert next[..|next| - 1] == worlds;
    FollowsWatched(explicitPath, worlds);
    FollowsWatched(explicitPath, next);
    var p := Follow(explicitPath, worlds);
    var chunk := Poll(p.cursor, explicitPath, w).1;
    assert Follow(explicitPath, next).chunks == [chunk] && [chunk][..0] == [];
    assert Joined([chunk]) == chunk;
  }

  /** Where a poll begins to read: at the start of a log newly rotated or cut, at the end of one newly found. */
  ghost function ReadsFrom(explicitPath: string, worlds: seq<World>, w: World): nat
    requires Watched(explicitPath, worlds + [w]) in w.files
  {
    if !NewLog(explicitPath, worlds, w) then Follow(explicitPath, worlds).cursor.offset
    else if Watched(explicitPath, worlds) != "" then 0
    else |w.files[Watched(explicitPath, worlds + [w])].content|
  }

  /**
   * What one poll reads, new log or not: from there on as much as it is
   * handed, and nothing if the log does not open.
   */
  lemma PollReads(explicitPath: string, worlds: seq<World>, w: World)
    requires Watched(explicitPath, worlds + [w]) != ""
    ensures Watched(explicitPath, worlds + [w]) in w.files
    ensures var p, q := Follow(explicitPath, worlds), Follow(explicitPath, worlds + [w]);
      var content := w.files[Watched(explicitPath, worlds + [w])].content;
      var from := ReadsFrom(explicitPath, worlds, w);
      && from <= |content|
      && (!w.opens ==> q.cursor.offset == from)
      && (w.opens && w.readable <= |content| - from ==> q.cursor.offset == from + w.readable)
      && (w.opens && w.readable >= |content| - from ==> q.cursor.offset == |content|)
      && q.chunks == (if NewLog(explicitPath, worlds, w) then [] else p.chunks) + [content[from..q.cursor.offset]]
  {
    var next := worlds + [w];
    assert next[..|next| - 1] == worlds;
    FollowsWatched(explicitPath, worlds);
    FollowsWatched(explicitPath, next);
    var p, q := Follow(explicitPath, worlds), Follow(explicitPath, next);
    var content := w.files[q.cursor.path].content;
    var from := ReadsFrom(explicitPath, worlds, w);
    var chunk := Poll(p.cursor, explicitPath, w).1;
    assert from <= |content|;
    assert content[from..from] == "";
    assert chunk == content[from..q.cursor.offset];
    assert [] + [chunk] == [chunk];
  }


  /**
   * When the last poll opens the log and is handed all that is left, the
   * present generation has been read to its end.
   */
  lemma CaughtUp(explicitPath: string, worlds: seq<World>, w: World)
    requires forall k :: 0 <= k < |worlds| + 1 ==>
      ShowsOrAppends(Follow(explicitPath, (worlds + [w])[..k]), (worlds + [w])[k])
    requires Watched(explicitPath, worlds + [w]) != "" && w.opens
    requires Watched(explicitPath, worlds + [w]) in w.files
      && w.readable >= |w.files[Watched(explicitPath, worlds + [w])].content| - ReadsFrom(explicitPath, worlds, w)
    ensures var q, content := Follow(explicitPath, worlds + [w]), w.files[Watched(explicitPath, worlds + [w])].content;
      q.cursor.offset == |content| && q.start <= |content| && Joined(q.chunks) == content[q.start..]
  {
    hide Follow, Joined;
    GenerationReadOnce(explicitPath, worlds + [w]);
    PollReads(explicitPath, worlds, w);
    SeenLast(explicitPath, worlds, w);
  }

  lemma SeenLast(explicitPath: string, worlds: seq<World>, w: World)
    requires Watched(explicitPath, worlds + [w]) != ""
    ensures var q := Follow(explicitPath, worlds + [w]);
      && q.cursor.path == Watched(explicitPath, worlds + [w])
      && q.cursor.path in w.files && q.seen == w.files[q.cursor.path].content
  {
    var next := worlds + [w];
    assert next[..|next| - 1] == worlds;
    FollowsWatched(explicitPath, worlds);
    FollowsWatched(explicitPath, next);
  }

  /** The last poll began to read the log, at its start. */
  ghost predicate FromStart(p: Progress) { p.start == 0 && |p.chunks| == 1 }

  /**
   * A poll begins to read a configured log from its start exactly when the
   * poll before found a file there and this one finds another inode or less
   * than was read, or the poll before found none and the log is empty.
   */
  lemma RotationIsRead(path: string, worlds: seq<World>, w: World)
    requires path != "" && worlds != [] && path in w.files
    ensures var p, q, f := Follow(path, worlds), Follow(path, worlds + [w]), w.files[path];
      && (FromStart(q) <==>
            if path in worlds[|worlds| - 1].files
            then (f.inode != 0 && f.inode != LastInode(path, worlds)) || |f.content| < p.cursor.offset
            else f.content == "")
      && (FromStart(q) ==> q.cursor.offset <= |f.content| && Joined(q.chunks) == f.content[..q.cursor.offset])
  {
    hide Follow, Joined, Watched, LastInode;
    ConfiguredWatched(path, worlds);
    ConfiguredWatched(path, worlds + [w]);
    NewLogIff(path, worlds, w);
    if NewLog(path, worlds, w) { NewLogStart(path, worlds, w); }
  }

  /** Exactly a new log makes a poll start over. */
  lemma NewLogIff(explicitPath: string, worlds: seq<World>, w: World)
    requires Watched(explicitPath, worlds + [w]) != ""
    ensures NewLog(explicitPath, worlds, w) <==> |Follow(explicitPath, worlds + [w]).chunks| == 1
  {
    var next := worlds + [w];
    assert next[..|next| - 1] == worlds;
    FollowsWatched(explicitPath, worlds);
    FollowsWatched(explicitPath, next);
  }

  lemma AfterSeen(path: string, seen: World, w: World)
    requires path != "" && path in seen.files && seen.files[path].inode == 1 && path in w.files
    requires w.files[path].inode == 2 && w.opens && w.readable >= |w.files[path].content|
    ensures var p := Follow(path, [seen, w]); FromStart(p) && Joined(p.chunks) == w.files[path].content
  {
    hide Follow, Joined, Watched;
    ConfiguredWatched(path, [seen]);
    ConfiguredWatched(path, [seen] + [w]);
    NewLogIff(path, [seen], w);
    NewLogStart(path, [seen], w);
    assert [seen] + [w] == [seen, w];
  }

  lemma AfterGap(path: string, seen: World, gap: World, w: World)
    requires path != "" && path !in gap.files && path in w.files
    ensures var p := Follow(path, [seen, gap, w]); p.start == |w.files[path].content| && Joined(p.chunks) == ""
  {
    hide Follow, Joined, Watched, LastInode;
    ConfiguredWatched(path, [seen, gap]);
    ConfiguredWatched(path, [seen, gap] + [w]);
    NewLogStart(path, [seen, gap], w);
    assert [seen, gap] + [w] == [seen, gap, w];
  }

  /** The same rotation, seen with and without a poll that finds no file: "bc" is read, or skipped. */
  lemma RotationCanBeMissed(path: string) returns (before: World, gap: World, after: World)
    requires path != ""
    ensures before.files == map[path := Image(1, "a")] && gap.files == map[]
    ensures after.files == map[path := Image(2, "bc")]
    ensures var p := Follow(path, [before, after]); FromStart(p) && Joined(p.chunks) == "bc"
    ensures var p := Follow(path, [before, gap, after]); p.start == 2 && Joined(p.chunks) == ""
  {
    hide Follow, Joined, FromStart;
    before := World(map[path := Image(1, "a")], true, 32768);
    gap := World(map[], true, 32768);
    after := World(map[path := Image(2, "bc")], true, 32768);
    AfterSeen(path, before, after);
    AfterGap(path, before, gap, after);
  }

  // ---------- chunkwise parsing ----------

  predicate EndsLine(s: string) { s == "" || s[|s| - 1] == '\n' }

  lemma {:induction false} LinesAfterNewline(a: string, b: string)
    requires a != "" && a[|a| - 1] == '\n'
    ensures Lines(a + b) == Lines(a[..|a| - 1]) + Lines(b)
  {
    hide AddChar;
    var s := a + b;
    if b == "" {
      LinesEndingInNewline(a);
      assert s == a;
    } else {
      assert s[..|s| - 1] == a + b[..|b| - 1];
      LinesAfterNewline(a, b[..|b| - 1]);
      AddCharRight(Lines(a[..|a| - 1]), Lines(b[..|b| - 1]), b[|b| - 1]);
    }
  }

  lemma LinesEndingInNewline(a: string)
    requires a != "" && a[|a| - 1] == '\n'
    ensures Lines(a) == Lines(a[..|a| - 1]) + Lines("")
  {}

  lemma AddCharRight(l: seq<string>, m: seq<string>, c: char)
    requires |m| > 0
    ensures AddChar(l + m, c) == l + AddChar(m, c)
  {
    assert (l + m)[..|l + m| - 1] == l + m[..|m| - 1];
  }

  lemma {:induction false} ParsedSplits<E>(a: seq<string>, b: seq<string>, parse: string -> Option<E>)
    ensures Parsed(a + b, parse) == Parsed(a, parse) + Parsed(b, parse)
  {
    if b == [] {
      assert a + b == a;
    } else {
      assert (a + b)[..|a + b| - 1] == a + b[..|b| - 1];
      ParsedSplits(a, b[..|b| - 1], parse);
    }
  }

  /** A cut right after a newline does not change the events. */
  lemma EventsSplit<E>(a: string, b: string, parse: string -> Option<E>)
    requires EndsLine(a) && parse("").None?
    ensures Events(a + b, parse) == Events(a, parse) + Events(b, parse)
  {
    assert Parsed([""], parse) == [] by { assert [""][..0] == []; }
    if a == "" {
      assert a + b == b;
    } else {
      LinesAfterNewline(a, b);
      LinesAfterNewline(a, "");
      assert a + "" == a;
      ParsedSplits(Lines(a[..|a| - 1]), Lines(b), parse);
      ParsedSplits(Lines(a[..|a| - 1]), [""], parse);
    }
  }

  function EventsOfChunks<E>(chunks: seq<string>, parse: string -> Option<E>): seq<E> {
    if chunks == [] then []
    else EventsOfChunks(chunks[..|chunks| - 1], parse) + Events(chunks[|chunks| - 1], parse)
  }

  /** When every chunk ends at a newline, parsing chunk by chunk gives the events of the whole text. */
  lemma {:induction false} ChunkwiseIsWhole<E>(chunks: seq<string>, parse: string -> Option<E>)
    requires parse("").None?
    requires forall k :: 0 <= k < |chunks| - 1 ==> EndsLine(chunks[k])
    ensures EventsOfChunks(chunks, parse) == Events(Joined(chunks), parse)
  {
    if chunks == [] {
      assert Parsed([""], parse) == [] by { assert [""][..0] == []; }
    } else {
      var front := chunks[..|chunks| - 1];
      ChunkwiseIsWhole(front, parse);
      JoinedEndsLine(front);
      EventsSplit(Joined(front), chunks[|chunks| - 1], parse);
    }
  }

  lemma {:induction false} JoinedEndsLine(chunks: seq<string>)
    requires forall k :: 0 <= k < |chunks| ==> EndsLine(chunks[k])
    ensures EndsLine(Joined(chunks))
  {
    if chunks != [] { JoinedEndsLine(chunks[..|chunks| - 1]); }
  }

  /** The last events gained are those of the present generation, which has one chunk for each of its polls. */
  lemma {:induction false} GainedLast<E>(explicitPath: string, worlds: seq<World>, parse: string -> Option<E>)
    ensures var chunks := Follow(explicitPath, worlds).chunks;
      && |chunks| <= |worlds|
      && Gained(explicitPath, worlds, parse)
         == Gained(explicitPath, worlds[..|worlds| - |chunks|], parse) + EventsOfChunks(chunks, parse)
  {
    hide *;
    var chunks := Follow(explicitPath, worlds).chunks;
    var n := |worlds| - 1;
    NoChunks(parse);
    assert worlds[..|worlds|] == worlds;
    if worlds == [] {
      NothingFollowed(explicitPath);
    } else if chunks != [] {
      var before := Follow(explicitPath, worlds[..n]);
      var chunk := Poll(before.cursor, explicitPath, worlds[n]).1;
      GainedOneMore(explicitPath, worlds, parse);
      if chunks == [chunk] {
        ChunksGrow([], chunk, parse);
        assert [] + [chunk] == [chunk];
      } else {
        GainedLast(explicitPath, worlds[..n], parse);
        ChunksGrow(before.chunks, chunk, parse);
        assert worlds[..n][..n - |before.chunks|] == worlds[..|worlds| - |chunks|];
      }
    }
  }

  lemma NothingFollowed(explicitPath: string)
    ensures Follow(explicitPath, []).chunks == []
  {}

  lemma NoChunks<E>(parse: string -> Option<E>)
    ensures EventsOfChunks([], parse) == []
  {}

  lemma ChunksGrow<E>(chunks: seq<string>, chunk: string, parse: string -> Option<E>)
    ensures EventsOfChunks(chunks + [chunk], parse) == EventsOfChunks(chunks, parse) + Events(chunk, parse)
  {
    hide Events;
    assert (chunks + [chunk])[..|chunks|] == chunks;
  }

  lemma GainedOneMore<E>(explicitPath: string, worlds: seq<World>, parse: string -> Option<E>)
    requires worlds != []
    ensures var n := |worlds| - 1;
      var before := Follow(explicitPath, worlds[..n]);
      var chunk := Poll(before.cursor, explicitPath, worlds[n]).1;
      && Gained(explicitPath, worlds, parse) == Gained(explicitPath, worlds[..n], parse) + Events(chunk, parse)
      && (Follow(explicitPath, worlds).chunks == [] || Follow(explicitPath, worlds).chunks == [chunk]
          || Follow(explicitPath, worlds).chunks == before.chunks + [chunk])
  {
    hide Events, Poll, Found, Rewound;
  }

  /**
   * While polls stop at line ends, what a watcher has logged ends with the
   * events of the content of the present generation read so far, parsed as a
   * whole, after what it had logged before that generation.
   */
  lemma GenerationEvents<E>(explicitPath: string, worlds: seq<World>, parse: string -> Option<E>)
    requires forall k :: 0 <= k < |worlds| ==> ShowsOrAppends(Follow(explicitPath, worlds[..k]), worlds[k])
    requires parse("").None?
    requires var p := Follow(explicitPath, worlds);
      p.cursor.path != "" && forall k :: 0 <= k < |p.chunks| - 1 ==> EndsLine(p.chunks[k])
    ensures var p := Follow(explicitPath, worlds);
      && p.start <= p.cursor.offset <= |p.seen| && |p.chunks| <= |worlds|
      && Gained(explicitPath, worlds, parse)
         == Gained(explicitPath, worlds[..|worlds| - |p.chunks|], parse)
            + Events(p.seen[p.start..p.cursor.offset], parse)
  {
    GenerationReadOnce(explicitPath, worlds);
    GainedLast(explicitPath, worlds, parse);
    ChunkwiseIsWhole(Follow(explicitPath, worlds).chunks, parse);
  }

  /**
   * When besides all chunks but the last end at newlines, what the watcher has
   * logged ends with the events of the log's text, from where the generation
   * began to be read to the end.
   */
  lemma CaughtUpEvents<E>(explicitPath: string, worlds: seq<World>, w: World, parse: string -> Option<E>)
    requires forall k :: 0 <= k < |worlds| + 1 ==>
      ShowsOrAppends(Follow(explicitPath, (worlds + [w])[..k]), (worlds + [w])[k])
    requires Watched(explicitPath, worlds + [w]) != "" && w.opens && parse("").None?
    requires Watched(explicitPath, worlds + [w]) in w.files
      && w.readable >= |w.files[Watched(explicitPath, worlds + [w])].content| - ReadsFrom(explicitPath, worlds, w)
    requires var chunks := Follow(explicitPath, worlds + [w]).chunks;
      forall k :: 0 <= k < |chunks| - 1 ==> EndsLine(chunks[k])
    ensures var all, q := worlds + [w], Follow(explicitPath, worlds + [w]);
      var content := w.files[Watched(explicitPath, all)].content;
      && q.start <= |content| && |q.chunks| <= |all|
      && Gained(explicitPath, all, parse)
         == Gained(explicitPath, all[..|all| - |q.chunks|], parse) + Events(content[q.start..], parse)
  {
    hide Follow, Joined, Events, Gained;
    CaughtUp(explicitPath, worlds, w);
    SeenLast(explicitPath, worlds, w);
    GenerationEvents(explicitPath, worlds + [w], parse);
    var q := Follow(explicitPath, worlds + [w]);
    assert q.seen[q.start..q.cursor.offset] == q.seen[q.start..];
  }

  // ---------- lines ----------

  function JoinLines(lines: seq<string>): string {
    if lines == [] then "" else if |lines| == 1 then lines[0]
    else JoinLines(lines[..|lines| - 1]) + "\n" + lines[|lines| - 1]
  }

  /** A text is its lines, joined by newlines, and no line contains one. */
  lemma {:induction false} LinesJoin(s: string)
    ensures JoinLines(Lines(s)) == s && forall l :: l in Lines(s) ==> '\n' !in l
  {
    hide AddChar;
    if s != [] {
      hide JoinLines;
      var front, c := s[..|s| - 1], s[|s| - 1];
      LinesJoin(front);
      AddCharJoins(Lines(front), c);
      assert s == front + [c];
    }
  }

  lemma AddCharJoins(lines: seq<string>, c: char)
    requires lines != [] && forall l :: l in lines ==> '\n' !in l
    ensures JoinLines(AddChar(lines, c)) == JoinLines(lines) + [c]
    ensures forall l :: l in AddChar(lines, c) ==> '\n' !in l
  {
    var next := AddChar(lines, c);
    var n := |lines| - 1;
    if c == '\n' {
      assert next[..|next| - 1] == lines;
    } else {
      assert next[..|next| - 1] == lines[..n];
      var before := JoinLines(lines[..n]) + "\n";
      assert before + (lines[n] + [c]) == (before + lines[n]) + [c];
    }
  }

  /** Every line that is one is an event. */
  lemma EventsOfLine<E>(line: string, parse: string -> Option<E>)
    requires '\n' !in line
    ensures Events(line, parse) == if parse(line).Some? then [parse(line).value] else []
  {
    OneLine(line);
    assert [line][..0] == [];
  }

  lemma {:induction false} OneLine(line: string)
    requires '\n' !in line
    ensures Lines(line) == [line]
  {
    hide AddChar;
    if line != [] {
      var front, c := line[..|line| - 1], line[|line| - 1];
      assert line == front + [c];
      OneLine(front);
      AddToOnly(front, c);
    }
  }

  lemma AddToOnly(line: string, c: char)
    requires c != '\n'
    ensures AddChar([line], c) == [line + [c]]
  {}
}
