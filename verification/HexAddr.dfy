/** The address encoding of /proc/net/tcp and tcp6 (internal/security/connections.go:166-182). */
module HexAddr {
  import opened Wrappers

  type Byte = n: nat | n < 256

  /** Four bytes in a row. An IPv4 address is one such group, an IPv6 address four. */
  datatype Quad = Quad(b0: Byte, b1: Byte, b2: Byte, b3: Byte)

  predicate IsHex(c: char) { '0' <= c <= '9' || 'a' <= c <= 'f' || 'A' <= c <= 'F' }

  predicate AllHex(s: string) { forall i :: 0 <= i < |s| ==> IsHex(s[i]) }

  function Nibble(c: char): (n: nat)
    requires IsHex(c)
    ensures n < 16
  {
    if c <= '9' then (c - '0') as nat else if c <= 'F' then (c - 'A') as nat + 10 else (c - 'a') as nat + 10
  }

  function HexByte(hi: char, lo: char): Byte
    requires IsHex(hi) && IsHex(lo)
  {
    16 * Nibble(hi) + Nibble(lo)
  }

  /** hex.DecodeString on eight characters. */
  function DecodeString(s: string): Option<Quad>
    requires |s| == 8
  {
    if AllHex(s) then Some(Quad(HexByte(s[0], s[1]), HexByte(s[2], s[3]), HexByte(s[4], s[5]), HexByte(s[6], s[7])))
    else None
  }

  function Swapped(q: Quad): Quad { Quad(q.b3, q.b2, q.b1, q.b0) }

  /** Every group of 8 characters is a little-endian 32-bit word. */
  function Groups(h: string): Option<seq<Quad>>
    requires |h| % 8 == 0
  {
    if h == [] then Some([])
    else if DecodeString(h[..8]).None? then None
    else Prefixed([Swapped(DecodeString(h[..8]).value)], Groups(h[8..]))
  }

  function Prefixed(raw: seq<Quad>, rest: Option<seq<Quad>>): Option<seq<Quad>> {
    if rest.None? then None else Some(raw + rest.value)
  }

  lemma PrefixMore(raw: seq<Quad>, q: Quad, rest: Option<seq<Quad>>)
    ensures Prefixed(raw, Prefixed([q], rest)) == Prefixed(raw + [q], rest)
  {
    if rest.Some? { assert raw + ([q] + rest.value) == (raw + [q]) + rest.value; }
  }

  lemma GroupsStep(h: string, i: nat)
    requires i < |h| && |h| % 8 == 0 && i % 8 == 0
    ensures i + 8 <= |h|
    ensures Groups(h[i..]) == match DecodeString(h[i..i + 8])
      case None => None
      case Some(q) => Prefixed([Swapped(q)], Groups(h[i + 8..]))
  {
    assert h[i..][..8] == h[i..i + 8] && h[i..][8..] == h[i + 8..];
  }

  lemma NoGroups(h: string)
    requires h == ""
    ensures Groups(h) == Some([])
  {}

  /** The address bytes in network order; None for anything but a whole IPv4 or IPv6 address. */
  method DecodeHexAddr(h: string) returns (ip: Option<seq<Quad>>)
    ensures ip == if |h| != 8 && |h| != 32 then None else Groups(h)
  {
    hide DecodeString, Groups;
    if |h| != 8 && |h| != 32 { return None; }
    var raw: seq<Quad> := [];
    var i := 0;
    assert h[0..] == h && (Groups(h).Some? ==> [] + Groups(h).value == Groups(h).value);
    while i < |h|
      invariant 0 <= i <= |h| && i % 8 == 0
      invariant Groups(h) == Prefixed(raw, Groups(h[i..]))
    {
      GroupsStep(h, i);
      var chunk := DecodeString(h[i..i + 8]);
      if chunk.None? { return None; }
      var q := Quad(chunk.value.b3, chunk.value.b2, chunk.value.b1, chunk.value.b0);
      PrefixMore(raw, q, Groups(h[i + 8..]));
      raw := raw + [q];
      i := i + 8;
    }
    NoGroups(h[i..]);
    assert raw + [] == raw;
    return Some(raw);
  }

  // ---------- the kernel's side ----------

  function HexDigit(n: nat): char
    requires n < 16
  {
    if n < 10 then n as char + '0' else (n - 10) as char + 'A'
  }

  function Hi(b: Byte): char { HexDigit(b / 16) }
  function Lo(b: Byte): char { HexDigit(b % 16) }

  /** %08X of a 32-bit word that holds the four bytes in memory order on a little-endian machine. */
  function PrintedQuad(q: Quad): string {
    [Hi(q.b3), Lo(q.b3), Hi(q.b2), Lo(q.b2), Hi(q.b1), Lo(q.b1), Hi(q.b0), Lo(q.b0)]
  }

  /** How the kernel prints an address. */
  function Printed(raw: seq<Quad>): string {
    if raw == [] then [] else PrintedQuad(raw[0]) + Printed(raw[1..])
  }

  function UpperChar(c: char): char { if 'a' <= c <= 'z' then c - 'a' + 'A' else c }

  function Upper(s: string): string { seq(|s|, i requires 0 <= i < |s| => UpperChar(s[i])) }

  lemma ByteOfDigits(b: Byte)
    ensures IsHex(Hi(b)) && IsHex(Lo(b)) && HexByte(Hi(b), Lo(b)) == b
  {}

  lemma DigitsOfByte(hi: char, lo: char)
    requires IsHex(hi) && IsHex(lo)
    ensures Hi(HexByte(hi, lo)) == UpperChar(hi) && Lo(HexByte(hi, lo)) == UpperChar(lo)
  {
    var b := HexByte(hi, lo);
    assert b / 16 == Nibble(hi) && b % 16 == Nibble(lo);
  }

  lemma DecodePrintedQuad(q: Quad)
    ensures DecodeString(PrintedQuad(q)) == Some(Swapped(q))
  {
    hide HexByte, Hi, Lo, IsHex;
    ByteOfDigits(q.b0);
    ByteOfDigits(q.b1);
    ByteOfDigits(q.b2);
    ByteOfDigits(q.b3);
  }

  lemma PrintDecodedQuad(s: string)
    requires |s| == 8 && DecodeString(s).Some?
    ensures PrintedQuad(Swapped(DecodeString(s).value)) == Upper(s)
  {
    hide HexByte, Hi, Lo, IsHex, UpperChar;
    DigitsOfByte(s[0], s[1]);
    DigitsOfByte(s[2], s[3]);
    DigitsOfByte(s[4], s[5]);
    DigitsOfByte(s[6], s[7]);
  }

  /** What the kernel prints for an address is decoded to that address. */
  lemma {:induction false} DecodePrinted(raw: seq<Quad>)
    ensures |Printed(raw)| == 8 * |raw| && Groups(Printed(raw)) == Some(raw)
  {
    hide DecodeString, Hi, Lo;
    if raw != [] {
      DecodePrinted(raw[1..]);
      DecodePrintedQuad(raw[0]);
      assert Printed(raw)[..8] == PrintedQuad(raw[0]) && Printed(raw)[8..] == Printed(raw[1..]);
      assert [raw[0]] + raw[1..] == raw;
    }
  }

  /** Nothing else is decoded: an accepted text is what the kernel prints, up to letter case. */
  lemma {:induction false} DecodedIsPrinted(h: string)
    requires |h| % 8 == 0 && Groups(h).Some?
    ensures 8 * |Groups(h).value| == |h| && Printed(Groups(h).value) == Upper(h)
  {
    hide DecodeString, PrintedQuad;
    if h != [] {
      DecodedIsPrinted(h[8..]);
      PrintDecodedQuad(h[..8]);
      assert Groups(h).value[1..] == Groups(h[8..]).value;
      assert Upper(h) == Upper(h[..8]) + Upper(h[8..]);
    }
  }

  lemma UpperDecodes(s: string)
    requires |s| == 8
    ensures DecodeString(Upper(s)) == DecodeString(s)
  {
    hide IsHex, Nibble, UpperChar;
    var u := Upper(s);
    forall i | 0 <= i < 8
      ensures IsHex(u[i]) <==> IsHex(s[i])
      ensures IsHex(s[i]) ==> Nibble(u[i]) == Nibble(s[i])
    {
      UpperDigit(s[i]);
    }
  }

  lemma UpperDigit(c: char)
    ensures IsHex(UpperChar(c)) <==> IsHex(c)
    ensures IsHex(c) ==> Nibble(UpperChar(c)) == Nibble(c)
  {}

  lemma {:induction false} UpperGroups(h: string)
    requires |h| % 8 == 0
    ensures Groups(Upper(h)) == Groups(h)
  {
    hide DecodeString, UpperChar;
    if h != [] {
      UpperGroups(h[8..]);
      UpperDecodes(h[..8]);
      assert Upper(h)[..8] == Upper(h[..8]) && Upper(h)[8..] == Upper(h[8..]);
    }
  }

  /** A text is decoded to an address exactly when it is what the kernel prints for it, in any letter case. */
  lemma DecodedIff(h: string, raw: seq<Quad>)
    requires |h| % 8 == 0
    ensures Groups(h) == Some(raw) <==> Upper(h) == Printed(raw)
  {
    hide UpperChar, PrintedQuad, DecodeString, Groups, Printed;
    UpperGroups(h);
    DecodePrinted(raw);
    if Groups(h) == Some(raw) { DecodedIsPrinted(h); }
  }
}
