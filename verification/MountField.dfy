/** The octal escapes of mount tables (internal/collector/host.go:417-436). Text is a sequence of bytes. */
module MountField {
  type Byte = n: nat | n < 256
  const BACKSLASH: Byte := 92

  predicate IsOctal(b: Byte) { 48 <= b < 56 }

  function ThreeDigits(a: int, b: int, c: int): int { 64 * (a - 48) + 8 * (b - 48) + (c - 48) }

  /** A backslash and three characters that strconv.ParseUint(s, 8, 8) accepts. */
  predicate IsEscape(s: seq<Byte>, i: nat) {
    && i + 3 < |s| && s[i] == BACKSLASH
    && IsOctal(s[i + 1]) && IsOctal(s[i + 2]) && IsOctal(s[i + 3])
    && ThreeDigits(s[i + 1], s[i + 2], s[i + 3]) < 256
  }

  function EscapeValue(s: seq<Byte>, i: nat): Byte
    requires IsEscape(s, i)
  {
    ThreeDigits(s[i + 1], s[i + 2], s[i + 3])
  }

  /** The meaning of the text from position i on. */
  function UnescapeFrom(s: seq<Byte>, i: nat): (r: seq<Byte>)
    ensures |r| <= if i <= |s| then |s| - i else 0
    decreases |s| - i
  {
    if i >= |s| then []
    else if IsEscape(s, i) then [EscapeValue(s, i)] + UnescapeFrom(s, i + 4)
    else [s[i]] + UnescapeFrom(s, i + 1)
  }

  function Unescape(s: seq<Byte>): (r: seq<Byte>)
    ensures |r| <= |s|
  {
    UnescapeFrom(s, 0)
  }

  method UnescapeMountField(s: seq<Byte>) returns (r: seq<Byte>)
    ensures r == Unescape(s) && |r| <= |s|
  {
    if BACKSLASH !in s {
      NothingToUnescape(s, 0);
      return s;
    }
    r := [];
    var i := 0;
    while i < |s|
      invariant r + UnescapeFrom(s, i) == Unescape(s)
      decreases |s| - i
    {
      UnescapeStep(r, s, i);
      if s[i] == BACKSLASH && i + 3 < |s| {
        var v := ParseOctalByte(s[i + 1], s[i + 2], s[i + 3]);
        if v >= 0 {
          r := r + [v];
          i := i + 4;
          continue;
        }
      }
      r := r + [s[i]];
      i := i + 1;
    }
  }

  lemma UnescapeStep(r: seq<Byte>, s: seq<Byte>, i: nat)
    requires i < |s|
    ensures r + UnescapeFrom(s, i)
      == if IsEscape(s, i) then r + [EscapeValue(s, i)] + UnescapeFrom(s, i + 4)
         else r + [s[i]] + UnescapeFrom(s, i + 1)
  {}

  /** strconv.ParseUint over three digits; -1 stands for its errors: no octal digit, or a value over 255. */
  method ParseOctalByte(a: Byte, b: Byte, c: Byte) returns (v: int)
    ensures v == if IsOctal(a) && IsOctal(b) && IsOctal(c) && ThreeDigits(a, b, c) < 256
                 then ThreeDigits(a, b, c) else -1
  {
    v := 0;
    var digits := [a, b, c];
    for k := 0 to 3
      invariant k == 0 ==> v == 0
      invariant k == 1 ==> IsOctal(a) && v == a - 48
      invariant k == 2 ==> IsOctal(a) && IsOctal(b) && v == 8 * (a - 48) + (b - 48)
      invariant k == 3 ==> IsOctal(a) && IsOctal(b) && IsOctal(c) && v == ThreeDigits(a, b, c) < 256
    {
      if digits[k] < 48 || digits[k] >= 56 { return -1; }
      v := 8 * v + (digits[k] - 48);
      if v > 255 { return -1; }
    }
  }

  /** Without a backslash the text means itself, which is what the fast path returns. */
  lemma {:induction false} NothingToUnescape(s: seq<Byte>, i: nat)
    requires i <= |s| && BACKSLASH !in s[i..]
    ensures UnescapeFrom(s, i) == s[i..]
    decreases |s| - i
  {
    if i < |s| {
      assert s[i..] == [s[i]] + s[i + 1..];
      NothingToUnescape(s, i + 1);
    }
  }

  /** At this place stand a backslash and the three octal digits of a byte. */
  predicate OctalAt(s: seq<Byte>, i: nat) {
    && i + 3 < |s| && s[i] == 92
    && 48 <= s[i + 1] <= 51 && 48 <= s[i + 2] <= 55 && 48 <= s[i + 3] <= 55
  }

  /** Everything else stands for itself, backslashes included. */
  lemma {:induction false} LiteralKept(s: seq<Byte>, i: nat)
    requires i <= |s| && forall k: nat :: i <= k < |s| ==> !OctalAt(s, k)
    ensures UnescapeFrom(s, i) == s[i..]
    decreases |s| - i
  {
    if i < |s| {
      assert !OctalAt(s, i) && s[i..] == [s[i]] + s[i + 1..];
      LiteralKept(s, i + 1);
    }
  }

  // ---------- the kernel's side ----------

  function Octal(b: Byte): seq<Byte> { [BACKSLASH, 48 + b / 64, 48 + b / 8 % 8, 48 + b % 8] }

  /** How the kernel writes a path: the bytes of special as octal escapes, the others as they are. */
  function Escape(s: seq<Byte>, special: set<Byte>): seq<Byte> {
    if s == [] then [] else (if s[0] in special then Octal(s[0]) else [s[0]]) + Escape(s[1..], special)
  }

  lemma OctalValue(b: Byte, rest: seq<Byte>)
    ensures IsEscape(Octal(b) + rest, 0) && EscapeValue(Octal(b) + rest, 0) == b
  {
    var high, low := b / 8, b % 8;
    assert b == 8 * high + low && high == 8 * (b / 64) + high % 8;
  }

  lemma EscapeShift(a: seq<Byte>, s: seq<Byte>, i: nat)
    requires i < |s|
    ensures IsEscape(a + s, |a| + i) <==> IsEscape(s, i)
    ensures IsEscape(s, i) ==> EscapeValue(a + s, |a| + i) == EscapeValue(s, i)
    ensures (a + s)[|a| + i] == s[i]
  {}

  lemma ShiftStep(a: seq<Byte>, s: seq<Byte>, i: nat)
    requires i < |s|
    requires var n := if IsEscape(s, i) then i + 4 else i + 1; UnescapeFrom(a + s, |a| + n) == UnescapeFrom(s, n)
    ensures UnescapeFrom(a + s, |a| + i) == UnescapeFrom(s, i)
  {
    hide UnescapeFrom, IsEscape, EscapeValue;
    EscapeShift(a, s, i);
    UnescapeAt(a + s, |a| + i);
    UnescapeAt(s, i);
  }

  lemma UnescapeAt(s: seq<Byte>, i: nat)
    requires i < |s|
    ensures UnescapeFrom(s, i)
      == if IsEscape(s, i) then [EscapeValue(s, i)] + UnescapeFrom(s, i + 4) else [s[i]] + UnescapeFrom(s, i + 1)
  {}

  lemma {:induction false} UnescapeShift(a: seq<Byte>, s: seq<Byte>, i: nat)
    ensures UnescapeFrom(a + s, |a| + i) == UnescapeFrom(s, i)
    decreases |s| - i
  {
    hide UnescapeFrom, IsEscape;
    if i < |s| {
      UnescapeShift(a, s, if IsEscape(s, i) then i + 4 else i + 1);
      ShiftStep(a, s, i);
    } else {
      NothingLeft(a + s, |a| + i);
      NothingLeft(s, i);
    }
  }

  lemma NothingLeft(s: seq<Byte>, i: nat)
    requires i >= |s|
    ensures UnescapeFrom(s, i) == []
  {}

  /**
   * Whichever bytes are escaped, as long as the backslash is one of them,
   * unescaping gives every path back. mountinfo escapes space, tab, newline
   * and backslash.
   */
  lemma {:induction false} UnescapeEscaped(s: seq<Byte>, special: set<Byte>)
    requires BACKSLASH in special
    ensures Unescape(Escape(s, special)) == s
  {
    if s != [] {
      var rest := Escape(s[1..], special);
      UnescapeEscaped(s[1..], special);
      if s[0] in special {
        OctalValue(s[0], rest);
        UnescapeShift(Octal(s[0]), rest, 0);
      } else {
        UnescapeShift([s[0]], rest, 0);
      }
      assert s == [s[0]] + s[1..];
    }
  }
}
