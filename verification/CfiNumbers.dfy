/**
 Decimal printing of `uint32_t` through `operator<<`, and reading it back through
 `operator>>` on a string stream: whitespace skipping, sign, overflow and the
 fail/end-of-file bits.
 */
module CfiNumbers {
  import opened Prelude

  predicate IsDigit(c: char) { '0' <= c <= '9' }

  /** `isspace` in the C locale. */
  predicate IsSpace(c: char) { c == ' ' || '\t' <= c <= '\r' }

  lemma {:induction false} SpacesAre(c: char)
    ensures IsSpace(c) <==> c in [' ', '\t', '\n', '\U{b}', '\U{c}', '\r']
  {
  }

  function DigitChar(d: nat): (c: char)
    requires d < 10
    ensures IsDigit(c) && DigitOf(c) == d
  {
    ('0' as int + d) as char
  }

  function DigitOf(c: char): (d: nat)
    requires IsDigit(c)
    ensures d < 10
  {
    c as int - '0' as int
  }

  predicate AllDigits(s: string) { forall c <- s :: IsDigit(c) }

  /** `builder << n`. */
  function Decimal(n: nat): (s: string)
    ensures s != "" && AllDigits(s)
  {
    if n < 10 then [DigitChar(n)] else Decimal(n / 10) + [DigitChar(n % 10)]
  }

  /** The value of a run of digits. */
  function Value(s: string): nat
    requires AllDigits(s)
  {
    if s == "" then 0 else 10 * Value(s[..|s| - 1]) + DigitOf(s[|s| - 1])
  }

  /** Length of the longest digit prefix. */
  function DigitRun(s: string): (k: nat)
    ensures k <= |s| && AllDigits(s[..k])
    ensures k < |s| ==> !IsDigit(s[k])
  {
    if s == "" || !IsDigit(s[0]) then 0 else
      var k := DigitRun(s[1..]);
      assert s[..k + 1] == [s[0]] + s[1..][..k];
      k + 1
  }

  function SkipSpace(s: string): (r: string)
    ensures |r| <= |s|
    ensures r != "" ==> !IsSpace(r[0])
  {
    if s == "" || !IsSpace(s[0]) then s else SkipSpace(s[1..])
  }

  /** A stream after an extraction: the target's value, what is unread, and the status bits. */
  datatype Extraction = Extraction(value: uint32, rest: string, fail: bool, eof: bool)

  /** The digits of a number and what follows them, behind the sign. */
  function ReadDigits(negative: bool, u: string): (r: Extraction)
    ensures |r.rest| <= |u| && (r.eof ==> r.rest == "")
  {
    var k := DigitRun(u);
    var rest := u[k..];
    if k == 0 then Extraction(0, rest, true, rest == "")
    else
      var v := Value(u[..k]);
      if v >= WORD then Extraction(WORD - 1, rest, true, rest == "")
      else Extraction(if negative then Sub32(0, v) else v, rest, false, rest == "")
  }

  /**
   `stream >> target` for a `uint32_t` target holding `held`: nothing to read leaves the
   target alone, no digits store 0, an overflow stores the maximum, and a minus sign
   negates modulo 2^32.
   */
  function ReadUint(held: uint32, s: string): (r: Extraction)
    ensures |r.rest| <= |s| && (r.eof ==> r.rest == "")
  {
    var t := SkipSpace(s);
    if t == "" then Extraction(held, "", true, true)
    else if t[0] == '-' || t[0] == '+' then ReadDigits(t[0] == '-', t[1..])
    else ReadDigits(false, t)
  }

  lemma {:induction false} ValueDecimal(n: nat)
    ensures Value(Decimal(n)) == n
  {
    if n < 10 {
      assert Decimal(n)[..0] == "";
    } else {
      ValueDecimal(n / 10);
      var s := Decimal(n);
      assert s[..|s| - 1] == Decimal(n / 10);
    }
  }

  lemma {:induction false} DigitRunIs(s: string, k: nat)
    requires k <= |s| && AllDigits(s[..k]) && (k < |s| ==> !IsDigit(s[k]))
    ensures DigitRun(s) == k
  {
    var j := DigitRun(s);
    assert forall i :: 0 <= i < k ==> IsDigit(s[..k][i]);
    assert forall i :: 0 <= i < j ==> IsDigit(s[..j][i]);
  }

  lemma {:induction false} SkipSpaces(spaces: string, t: string)
    requires (forall c <- spaces :: IsSpace(c)) && (t == "" || !IsSpace(t[0]))
    ensures SkipSpace(spaces + t) == t
  {
    if spaces == "" {
      assert spaces + t == t;
    } else {
      assert (spaces + t)[1..] == spaces[1..] + t;
      SkipSpaces(spaces[1..], t);
    }
  }

  /** What reading the number `n` comes to: negated modulo 2^32, or clamped with the fail bit. */
  function NumberRead(negative: bool, n: nat, rest: string): Extraction {
    if n >= WORD then Extraction(WORD - 1, rest, true, rest == "")
    else Extraction(if negative then Sub32(0, n) else n, rest, false, rest == "")
  }

  lemma {:induction false} ReadDigitsDecimal(negative: bool, n: nat, rest: string)
    requires rest == "" || !IsDigit(rest[0])
    ensures ReadDigits(negative, Decimal(n) + rest) == NumberRead(negative, n, rest)
  {
    var u := Decimal(n) + rest;
    var k := |Decimal(n)|;
    assert u[..k] == Decimal(n) && u[k..] == rest;
    DigitRunIs(u, k);
    ValueDecimal(n);
  }

  /** Any number behind any spaces. */
  lemma {:induction false} ReadNumber(held: uint32, spaces: string, n: nat, rest: string)
    requires (forall c <- spaces :: IsSpace(c)) && (rest == "" || !IsDigit(rest[0]))
    ensures ReadUint(held, spaces + (Decimal(n) + rest)) == NumberRead(false, n, rest)
  {
    var u := Decimal(n) + rest;
    assert IsDigit(Decimal(n)[0]) && u[0] == Decimal(n)[0];
    SkipSpaces(spaces, u);
    ReadDigitsDecimal(false, n, rest);
  }

  /** Any number behind any spaces and a sign. */
  lemma {:induction false} ReadSigned(held: uint32, spaces: string, sign: char, n: nat, rest: string)
    requires (forall c <- spaces :: IsSpace(c)) && (sign == '+' || sign == '-')
    requires rest == "" || !IsDigit(rest[0])
    ensures ReadUint(held, spaces + ([sign] + (Decimal(n) + rest))) == NumberRead(sign == '-', n, rest)
  {
    var t := [sign] + (Decimal(n) + rest);
    assert t[1..] == Decimal(n) + rest;
    SkipSpaces(spaces, t);
    ReadDigitsDecimal(sign == '-', n, rest);
  }

  /** Reading undoes printing, provided no digit follows. */
  lemma {:induction false} ReadDecimal(held: uint32, n: uint32, rest: string)
    requires rest == "" || !IsDigit(rest[0])
    ensures ReadUint(held, Decimal(n) + rest) == Extraction(n, rest, false, rest == "")
  {
    ReadNumber(held, "", n, rest);
    assert "" + (Decimal(n) + rest) == Decimal(n) + rest;
  }

  /** Where no number stands: the end leaves the target alone, anything else stores 0. */
  lemma {:induction false} ReadNoNumber(held: uint32, spaces: string, t: string)
    requires (forall c <- spaces :: IsSpace(c))
    requires t == "" || !(IsSpace(t[0]) || IsDigit(t[0]) || t[0] == '+' || t[0] == '-')
    ensures ReadUint(held, spaces + t) == Extraction(if t == "" then held else 0, t, true, t == "")
  {
    SkipSpaces(spaces, t);
    if t != "" {
      DigitRunIs(t, 0);
      assert t[0..] == t;
    }
  }

  /** A sign without a number behind it is read, and 0 is stored. */
  lemma {:induction false} ReadBareSign(held: uint32, spaces: string, sign: char, t: string)
    requires (forall c <- spaces :: IsSpace(c)) && (sign == '+' || sign == '-')
    requires t == "" || !IsDigit(t[0])
    ensures ReadUint(held, spaces + ([sign] + t)) == Extraction(0, t, true, t == "")
  {
    SkipSpaces(spaces, [sign] + t);
    assert ([sign] + t)[1..] == t && t[0..] == t;
    DigitRunIs(t, 0);
  }
}
