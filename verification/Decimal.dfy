/** Decimal numerals: printing, and reading them back off the front of a text. */
module Decimal {

  predicate IsDigit(c: char) { '0' <= c <= '9' }

  predicate AllDigits(s: string) { forall i :: 0 <= i < |s| ==> IsDigit(s[i]) }

  /** strconv.Itoa and %d on a non-negative number. */
  function Itoa(n: nat): (s: string)
    ensures |s| > 0 && AllDigits(s) && Value(s) == n
  {
    if n < 10 then [n as char + '0']
    else
      var front := Itoa(n / 10);
      var s := front + [(n % 10) as char + '0'];
      assert s[..|s| - 1] == front;
      s
  }

  function Value(s: string): nat
    requires AllDigits(s)
  {
    if s == [] then 0 else 10 * Value(s[..|s| - 1]) + (s[|s| - 1] - '0') as nat
  }

  /** How many digits a text starts with. */
  function Span(s: string): (n: nat)
    ensures n <= |s| && AllDigits(s[..n])
    ensures n < |s| ==> !IsDigit(s[n])
  {
    if s == [] || !IsDigit(s[0]) then 0
    else
      var n := 1 + Span(s[1..]);
      assert s[..n] == [s[0]] + s[1..][..n - 1];
      n
  }

  /** The number a text starts with, and the text after it. */
  function TakeNumber(s: string): (nat, string) {
    (Value(s[..Span(s)]), s[Span(s)..])
  }

  predicate StopsNumber(rest: string) { rest == [] || !IsDigit(rest[0]) }

  lemma {:induction false} SpanOf(digits: string, rest: string)
    requires AllDigits(digits) && StopsNumber(rest)
    ensures Span(digits + rest) == |digits|
  {
    if digits == [] {
      assert digits + rest == rest;
    } else {
      assert (digits + rest)[1..] == digits[1..] + rest;
      SpanOf(digits[1..], rest);
    }
  }

  lemma TakePrinted(n: nat, rest: string)
    requires StopsNumber(rest)
    ensures TakeNumber(Itoa(n) + rest) == (n, rest)
  {
    var s := Itoa(n) + rest;
    SpanOf(Itoa(n), rest);
    assert s[..Span(s)] == Itoa(n) && s[Span(s)..] == rest;
  }

  lemma PrintedInjective(m: nat, n: nat)
    requires Itoa(m) == Itoa(n)
    ensures m == n
  {
    assert Value(Itoa(m)) == Value(Itoa(n));
  }
}
