/** Decimal numerals: std::to_string and strtol with radix 10. */
module Decimal {
  import opened MachineWords

  predicate IsDigit(c: char) { '0' <= c <= '9' }

  predicate AllDigits(s: string) {
    forall k | 0 <= k < |s| :: IsDigit(s[k])
  }

  function Digits(n: nat): (s: string)
    ensures s != [] && AllDigits(s)
  {
    if n < 10 then ['0' + n as char] else Digits(n / 10) + ['0' + (n % 10) as char]
  }

  function Value(s: string): nat
    requires AllDigits(s)
  {
    if s == [] then 0 else 10 * Value(s[..|s| - 1]) + (s[|s| - 1] - '0') as nat
  }

  lemma {:induction false} ValueOfDigits(n: nat)
    ensures Value(Digits(n)) == n
  {
    if n >= 10 {
      var s := Digits(n);
      assert s[..|s| - 1] == Digits(n / 10);
      ValueOfDigits(n / 10);
    }
  }

  /** std::to_string. */
  function Printed(n: int): (s: string)
    ensures s != []
  {
    if n < 0 then "-" + Digits(-n) else Digits(n)
  }

  predicate IsSpace(c: char) { c in {' ', '\t', '\n', '\r', '\U{0b}', '\U{0c}'} }

  function SkipSpaces(t: string): string {
    if t != [] && IsSpace(t[0]) then SkipSpaces(t[1..]) else t
  }

  /** The length of the longest prefix of digits. */
  function DigitPrefix(t: string): (k: nat)
    ensures k <= |t| && AllDigits(t[..k]) && (k < |t| ==> !IsDigit(t[k]))
  {
    if t == [] || !IsDigit(t[0]) then 0
    else
      var k := DigitPrefix(t[1..]);
      assert t[..k + 1] == [t[0]] + t[1..][..k];
      k + 1
  }

  const LONG_MAX: int := 0x7fff_ffff_ffff_ffff
  const LONG_MIN: int := -0x8000_0000_0000_0000

  /** What strtol returns, the text left after the number, and whether errno was set. */
  datatype Number = Number(value: int, rest: string, range: bool)

  function Strtol(t: string): (n: Number)
    ensures LONG_MIN <= n.value <= LONG_MAX && |n.rest| <= |t|
  {
    SkipSpacesShortens(t);
    var n := ReadSigned(SkipSpaces(t));
    if n.None? then Number(0, t, false) else n.value
  }

  /** An optional sign and digits; a number out of range is cut to the nearest bound. */
  function ReadSigned(u: string): (n: Option<Number>)
    ensures n.Some? ==> LONG_MIN <= n.value.value <= LONG_MAX && |n.value.rest| <= |u|
  {
    var v := if u != [] && u[0] in {'-', '+'} then u[1..] else u;
    var k := DigitPrefix(v);
    if k == 0 then None
    else
      var m: int := Value(v[..k]);
      Some(Cut(if u[0] == '-' then -m else m, v[k..]))
  }

  function Cut(x: int, rest: string): Number {
    if x > LONG_MAX then Number(LONG_MAX, rest, true)
    else if x < LONG_MIN then Number(LONG_MIN, rest, true)
    else Number(x, rest, false)
  }

  lemma SkipSpacesShortens(t: string)
    ensures |SkipSpaces(t)| <= |t|
  {
  }

  /** Text that cannot be taken for more digits. */
  predicate Ends(rest: string) {
    rest == [] || !IsDigit(rest[0])
  }

  lemma {:induction false} DigitsThen(s: string, rest: string)
    requires AllDigits(s) && Ends(rest)
    ensures DigitPrefix(s + rest) == |s|
  {
    if s != [] {
      assert (s + rest)[1..] == s[1..] + rest;
      DigitsThen(s[1..], rest);
    } else {
      assert s + rest == rest;
    }
  }

  lemma ReadsPrinted(n: int, rest: string)
    requires Ends(rest)
    ensures ReadSigned(Printed(n) + rest) == Some(Cut(n, rest))
  {
    hide Digits, Value, DigitPrefix;
    var m := if n < 0 then -n else n;
    var s, u := Digits(m), Printed(n) + rest;
    assert u[0] == Printed(n)[0] && (n >= 0 ==> IsDigit(u[0]));
    var v := if n < 0 then u[1..] else u;
    assert v == s + rest;
    DigitsThen(s, rest);
    assert v[..|s|] == s && v[|s|..] == rest;
    ValueOfDigits(m);
  }

  /** Reading back a printed number of any size, with or without a space before it. */
  lemma StrtolReads(lead: string, n: int, rest: string)
    requires lead in {"", " "} && Ends(rest)
    ensures Strtol(lead + Printed(n) + rest) == Cut(n, rest)
  {
    hide Digits, ReadSigned, SkipSpaces;
    ReadsPrinted(n, rest);
    var u := Printed(n) + rest;
    assert u[0] == Printed(n)[0] && (n >= 0 ==> IsDigit(u[0]));
    assert lead + Printed(n) + rest == lead + u;
    SkipLead(lead, u);
  }

  lemma SkipLead(lead: string, u: string)
    requires lead in {"", " "} && u != [] && !IsSpace(u[0])
    ensures SkipSpaces(lead + u) == u
  {
    if lead == " " { assert (lead + u)[1..] == u; } else { assert lead + u == u; }
  }

  /** A numeral followed by something else can be told apart from every other such text. */
  lemma PrintedApart(a: nat, b: nat, rest: string, rest': string)
    requires Ends(rest) && Ends(rest') && Digits(a) + rest == Digits(b) + rest'
    ensures a == b && rest == rest'
  {
    DigitsThen(Digits(a), rest);
    DigitsThen(Digits(b), rest');
    assert Digits(a) == (Digits(a) + rest)[..|Digits(a)|];
    assert Digits(b) == (Digits(b) + rest')[..|Digits(b)|];
    ValueOfDigits(a);
    ValueOfDigits(b);
    assert rest == (Digits(a) + rest)[|Digits(a)|..];
    assert rest' == (Digits(b) + rest')[|Digits(b)|..];
  }
}
