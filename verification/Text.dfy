/** The text primitives the C++ code leans on: decimal printing, `strtoull`,
    `std::string::find` and whitespace-separated tokens. */
module Text {
  import opened Base

  // ---------------------------------------------------------------- numerals

  /** The value of a digit in bases up to sixteen; 99 for any other character. */
  function DigitValue(c: char): nat {
    if '0' <= c <= '9' then c as int - '0' as int
    else if 'a' <= c <= 'f' then c as int - 'a' as int + 10
    else if 'A' <= c <= 'F' then c as int - 'A' as int + 10
    else 99
  }

  /** A nonempty run of digits of `base`. */
  ghost predicate IsNumeral(s: string, base: nat) {
    s != "" && forall i :: 0 <= i < |s| ==> DigitValue(s[i]) < base
  }

  function Value(s: string, base: nat): nat {
    if s == "" then 0 else Value(s[..|s| - 1], base) * base + DigitValue(s[|s| - 1])
  }

  /** Decimal printing, `operator<<` and `std::to_string`. */
  function Dec(n: nat): string {
    if n < 10 then [('0' as int + n) as char] else Dec(n / 10) + [('0' as int + n % 10) as char]
  }

  lemma {:induction false} DecValue(n: nat)
    ensures IsNumeral(Dec(n), 10) && Value(Dec(n), 10) == n
  {
    var s := Dec(n);
    if n >= 10 {
      DecValue(n / 10);
      assert s[..|s| - 1] == Dec(n / 10);
    } else {
      assert s[..0] == "";
    }
  }

  predicate IsSpace(c: char) {
    c == ' ' || ('\t' <= c <= '\r')
  }

  function SkipSpace(s: string): string {
    if s != "" && IsSpace(s[0]) then SkipSpace(s[1..]) else s
  }

  /** The number of leading digits. */
  function Span(s: string, base: nat): (n: nat)
    ensures n <= |s|
  {
    if s != "" && DigitValue(s[0]) < base then 1 + Span(s[1..], base) else 0
  }

  /** A hexadecimal prefix is skipped only when a digit follows it. */
  function SkipHexPrefix(s: string, base: nat): string {
    if base == 16 && |s| >= 3 && s[0] == '0' && (s[1] == 'x' || s[1] == 'X') && DigitValue(s[2]) < 16 then s[2..] else s
  }

  /** `strtoull`: blanks, an optional sign, then the longest run of digits.
      Without a digit, or above 64 bits, there is no value; a minus sign negates
      modulo 2^64.  The unread rest comes with the value. */
  function ParseUll(text: string, base: nat): Option<(nat, string)> {
    var s := SkipSpace(text);
    var negative := s != "" && s[0] == '-';
    var t := SkipHexPrefix(if s != "" && (s[0] == '-' || s[0] == '+') then s[1..] else s, base);
    var n := Span(t, base);
    var v := Value(t[..n], base);
    if n == 0 || v >= TWO64 then None
    else Some((if negative && v != 0 then TWO64 - v else v, t[n..]))
  }

  function Stoull(text: string, base: nat): Option<nat> {
    match ParseUll(text, base)
    case None => None
    case Some(r) => Some(r.0)
  }

  lemma {:induction false} SpanNumeral(a: string, rest: string, base: nat)
    requires forall i :: 0 <= i < |a| ==> DigitValue(a[i]) < base
    requires rest == "" || DigitValue(rest[0]) >= base
    ensures Span(a + rest, base) == |a|
  {
    if a == "" {
      assert a + rest == rest;
    } else {
      assert (a + rest)[1..] == a[1..] + rest;
      SpanNumeral(a[1..], rest, base);
    }
  }

  /** A numeral is read to its end and means its value. */
  lemma ParseNumeral(a: string, rest: string, base: nat)
    requires base == 10 || base == 16
    requires IsNumeral(a, base) && (rest == "" || DigitValue(rest[0]) >= base)
    requires base == 16 ==> |a + rest| < 2 || a[0] != '0' || ((a + rest)[1] != 'x' && (a + rest)[1] != 'X')
    ensures ParseUll(a + rest, base) == if Value(a, base) >= TWO64 then None else Some((Value(a, base), rest))
  {
    var s := a + rest;
    assert s[0] == a[0] && DigitValue(a[0]) < base;
    assert SkipSpace(s) == s && SkipHexPrefix(s, base) == s;
    SpanNumeral(a, rest, base);
    assert s[..|a|] == a && s[|a|..] == rest;
  }

  lemma StoullNumeral(a: string)
    requires IsNumeral(a, 10)
    ensures Stoull(a, 10) == if Value(a, 10) >= TWO64 then None else Some(Value(a, 10))
  {
    ParseNumeral(a, "", 10);
    assert a + "" == a;
  }

  // ------------------------------------------------------------------ search

  /** Position of the first `c`, or the length. */
  function FindChar(s: string, c: char): (i: nat)
    ensures i <= |s| && (i < |s| ==> s[i] == c)
    ensures forall j :: 0 <= j < i ==> s[j] != c
  {
    if s == "" || s[0] == c then 0 else 1 + FindChar(s[1..], c)
  }

  lemma FindCharAt(a: string, c: char, rest: string)
    requires c !in a && (rest == "" || rest[0] == c)
    ensures FindChar(a + rest, c) == |a|
  {
    var i := FindChar(a + rest, c);
    assert forall j :: 0 <= j < |a| ==> (a + rest)[j] == a[j];
    assert rest != "" ==> (a + rest)[|a|] == c;
  }

  // ------------------------------------------------------------------ tokens

  /** The number of leading non-blank characters. */
  function Word(s: string): (n: nat)
    ensures n <= |s| && (n < |s| ==> IsSpace(s[n]))
    ensures forall i :: 0 <= i < n ==> !IsSpace(s[i])
  {
    if s != "" && !IsSpace(s[0]) then 1 + Word(s[1..]) else 0
  }

  lemma SkipSpaceFacts(s: string)
    ensures |SkipSpace(s)| <= |s| && (SkipSpace(s) != "" ==> !IsSpace(SkipSpace(s)[0]))
  {
  }

  /** What repeated `stream >> token` extracts. */
  function Tokens(text: string): seq<string>
    decreases |text|
  {
    SkipSpaceFacts(text);
    var s := SkipSpace(text);
    var n := Word(s);
    if n == 0 then [] else [s[..n]] + Tokens(s[n..])
  }

  ghost predicate Blankless(s: string) {
    forall i :: 0 <= i < |s| ==> !IsSpace(s[i])
  }

  /** One more token, blank-separated from the rest; an empty one leaves no trace. */
  lemma TokensStep(t: string, rest: string)
    requires Blankless(t) && (rest == "" || rest[0] == ' ')
    ensures Tokens(" " + t + rest) == (if t == "" then [] else [t]) + Tokens(rest)
  {
    var s := " " + t + rest;
    assert s[1..] == t + rest;
    if t == "" {
      assert s[1..] == rest;
      if rest != "" {
        assert SkipSpace(s) == SkipSpace(rest);
      }
    } else {
      assert (t + rest)[0] == t[0];
      assert SkipSpace(s) == t + rest;
      var n := Word(t + rest);
      assert n == |t| by {
        assert forall j :: 0 <= j < |t| ==> (t + rest)[j] == t[j];
        assert rest != "" ==> (t + rest)[|t|] == ' ';
      }
      assert (t + rest)[..n] == t && (t + rest)[n..] == rest;
    }
  }

  /** No leading zeros. */
  lemma {:induction false} DecPlain(n: nat)
    ensures |Dec(n)| > 0 && (Dec(n)[0] == '0' <==> n == 0)
  {
    if n >= 10 {
      DecPlain(n / 10);
    }
  }

  lemma WholeSpan(a: string)
    requires IsNumeral(a, 10)
    ensures Span(a, 10) == |a| && a[..|a|] == a && SkipSpace(a) == a && a[0] != '-' && a[0] != '+'
  {
    assert DigitValue(a[0]) < 10;
    SpanNumeral(a, "", 10);
    assert a + "" == a;
    hide Span;
  }

  lemma SkipBefore(c: char, a: string)
    requires a == SkipSpace(a)
    ensures SkipSpace([c] + a) == if IsSpace(c) then a else [c] + a
    ensures ([c] + a)[1..] == a
  {
    assert ([c] + a)[1..] == a;
  }

  /** A blank or a plus sign before a number changes nothing, and a minus sign negates
      it modulo 2^64. */
  lemma ParseSigned(c: char, a: string)
    requires IsNumeral(a, 10) && Value(a, 10) < TWO64 && (c == ' ' || c == '+' || c == '-')
    ensures var v := Value(a, 10);
            Stoull([c] + a, 10) == Some(if c == '-' && v > 0 then TWO64 - v else v)
  {
    WholeSpan(a);
    SkipBefore(c, a);
    hide Value, Span, SkipSpace, IsNumeral;
    assert SkipHexPrefix(a, 10) == a;
    hide SkipHexPrefix;
  }

  /** Without a digit there is no number. */
  lemma ParseNothing(s: string)
    requires s == "" || (!IsSpace(s[0]) && s[0] != '-' && s[0] != '+' && DigitValue(s[0]) >= 10)
    ensures Stoull(s, 10) == None
  {
  }
}
