/** Per-process CPU rates (internal/collector/process.go). */
module Process {
  import opened Decimal
  import opened Words
  import opened Wrappers

  // ---------- /proc/<pid>/stat ----------

  /** unicode.IsSpace. */
  predicate IsSpace(c: char) {
    c == ' ' || '\t' <= c <= '\r' || c == '\U{85}' || c == '\U{A0}' || c == '\U{1680}' || '\U{2000}' <= c <= '\U{200A}'
    || c == '\U{2028}' || c == '\U{2029}' || c == '\U{202F}' || c == '\U{205F}' || c == '\U{3000}'
  }

  function TokenLength(s: string): (n: nat)
    ensures n <= |s|
  {
    if s == [] || IsSpace(s[0]) then 0 else 1 + TokenLength(s[1..])
  }

  /** strings.Fields. */
  function Fields(s: string): seq<string> {
    if s == [] then []
    else if IsSpace(s[0]) then Fields(s[1..])
    else
      var n := TokenLength(s);
      [s[..n]] + Fields(s[n..])
  }

  /** strconv.ParseUint(s, 10, 64) with its error ignored. */
  function ParseUint(s: string): U64 {
    if s == [] || !AllDigits(s) then 0 else if Value(s) >= MODULUS then MODULUS - 1 else Value(s)
  }

  function IndexByte(s: string, c: char): Option<nat> {
    if s == [] then None
    else if s[0] == c then Some(0)
    else match IndexByte(s[1..], c) case None => None case Some(i) => Some(i + 1)
  }

  function LastIndexByte(s: string, c: char): Option<nat> {
    if s == [] then None
    else if s[|s| - 1] == c then Some(|s| - 1)
    else LastIndexByte(s[..|s| - 1], c)
  }

  lemma {:induction false} IndexByteIs(s: string, c: char)
    ensures match IndexByte(s, c)
      case None => c !in s
      case Some(i) => i < |s| && s[i] == c
  {
    if s != [] && s[0] != c { IndexByteIs(s[1..], c); }
  }

  lemma {:induction false} LastIndexByteIs(s: string, c: char)
    ensures match LastIndexByte(s, c)
      case None => c !in s
      case Some(i) => i < |s| && s[i] == c
  {
    if s != [] && s[|s| - 1] != c { LastIndexByteIs(s[..|s| - 1], c); }
  }

  lemma {:induction false} IndexByteAt(a: string, c: char, b: string)
    requires c !in a
    ensures IndexByte(a + ([c] + b), c) == Some(|a|)
  {
    var s := a + ([c] + b);
    if a == [] {
      assert s == [c] + b;
    } else {
      assert s[1..] == a[1..] + ([c] + b) && s[0] == a[0];
      IndexByteAt(a[1..], c, b);
    }
  }

  lemma {:induction false} LastIndexByteAt(a: string, c: char, b: string)
    requires c !in b
    ensures LastIndexByte(a + ([c] + b), c) == Some(|a|)
  {
    var s := a + ([c] + b);
    if b != [] {
      assert s[|s| - 1] == b[|b| - 1];
      assert s[..|s| - 1] == a + ([c] + b[..|b| - 1]);
      LastIndexByteAt(a, c, b[..|b| - 1]);
    }
  }

  /** The command name and utime + stime of a stat line. */
  function ReadProcStat(line: string): Option<(string, U64)> {
    IndexByteIs(line, '(');
    LastIndexByteIs(line, ')');
    match (IndexByte(line, '('), LastIndexByte(line, ')'))
    case (Some(open), Some(close)) =>
      if close < open then None
      else
        var rest := Fields(line[close + 1..]);
        if |rest| < 13 then None
        else Some((line[open + 1..close], Add(ParseUint(rest[11]), ParseUint(rest[12]))))
    case _ => None
  }

  predicate IsToken(s: string) { s != [] && forall c :: c in s ==> !IsSpace(c) }

  function Spaced(tokens: seq<string>, tail: string): string {
    if tokens == [] then tail else " " + (tokens[0] + Spaced(tokens[1..], tail))
  }

  lemma {:induction false} TokenLengthIs(t: string, rest: string)
    requires (forall c :: c in t ==> !IsSpace(c)) && (rest == [] || IsSpace(rest[0]))
    ensures TokenLength(t + rest) == |t|
  {
    if t == [] {
      assert t + rest == rest;
    } else {
      assert (t + rest)[1..] == t[1..] + rest && t[0] in t;
      TokenLengthIs(t[1..], rest);
    }
  }

  lemma {:induction false} FieldsOfBlank(s: string)
    requires forall c :: c in s ==> IsSpace(c)
    ensures Fields(s) == []
  {
    if s != [] {
      assert s[0] in s;
      FieldsOfBlank(s[1..]);
    }
  }

  lemma {:induction false} FieldsOfSpaced(tokens: seq<string>, tail: string)
    requires forall t :: t in tokens ==> IsToken(t)
    requires forall c :: c in tail ==> IsSpace(c)
    ensures Fields(Spaced(tokens, tail)) == tokens
  {
    if tokens == [] {
      FieldsOfBlank(tail);
    } else {
      var t, rest := tokens[0], Spaced(tokens[1..], tail);
      assert IsToken(t);
      FieldsOfSpaced(tokens[1..], tail);
      assert rest == [] || IsSpace(rest[0]) by {
        if |tokens| == 1 && tail != [] { assert tail[0] in tail; }
      }
      TokenLengthIs(t, rest);
      var s := Spaced(tokens, tail);
      assert s[1..] == t + rest;
      assert (t + rest)[0] == t[0] && t[0] in t;
      assert (t + rest)[..|t|] == t && (t + rest)[|t|..] == rest;
      assert tokens == [t] + tokens[1..];
    }
  }

  /** A stat line as the kernel writes it. */
  function StatLine(pid: nat, name: string, tokens: seq<string>, tail: string): string {
    (Itoa(pid) + " ") + ("(" + (name + (")" + Spaced(tokens, tail))))
  }

  lemma {:induction false} SpacedHasNoParen(tokens: seq<string>, tail: string)
    requires forall t :: t in tokens ==> ')' !in t
    requires forall c :: c in tail ==> IsSpace(c)
    ensures ')' !in Spaced(tokens, tail)
  {
    if tokens != [] { SpacedHasNoParen(tokens[1..], tail); }
  }

  /**
   * Any command name comes back whole, spaces and parentheses included, with
   * utime + stime, as long as no ')' follows the one that closes the name.
   */
  lemma StatRecovered(pid: nat, name: string, tokens: seq<string>, tail: string, utime: U64, stime: U64)
    requires forall t :: t in tokens ==> IsToken(t) && ')' !in t
    requires forall c :: c in tail ==> IsSpace(c)
    requires |tokens| >= 13 && tokens[11] == Itoa(utime) && tokens[12] == Itoa(stime)
    ensures ReadProcStat(StatLine(pid, name, tokens, tail)) == Some((name, Add(utime, stime)))
  {
    hide Fields, Spaced, ParseUint, IndexByte, LastIndexByte;
    SpacedHasNoParen(tokens, tail);
    NameFound(Itoa(pid) + " ", name, Spaced(tokens, tail));
    FieldsOfSpaced(tokens, tail);
    ParsePrinted(utime);
    ParsePrinted(stime);
  }

  lemma ParsePrinted(n: U64)
    ensures ParseUint(Itoa(n)) == n
  {}

  /** The first '(' and the last ')' enclose the name. */
  lemma NameFound(front: string, name: string, rest: string)
    requires '(' !in front && ')' !in rest
    ensures var line, close := front + ("(" + (name + (")" + rest))), |front| + 1 + |name|;
      && IndexByte(line, '(') == Some(|front|) && LastIndexByte(line, ')') == Some(close)
      && close < |line| && line[close + 1..] == rest && line[|front| + 1..close] == name
  {
    hide IndexByte, LastIndexByte;
    var line := front + ("(" + (name + (")" + rest)));
    IndexByteAt(front, '(', name + (")" + rest));
    assert line == (front + ("(" + name)) + (")" + rest);
    LastIndexByteAt(front + ("(" + name), ')', rest);
  }
}
