/** The string operations of Rust's `str` that the models use. */
module Text {
  import opened Base

  /** `char::is_whitespace`: the Unicode White_Space property. */
  predicate IsSpace(c: char) {
    var n := c as int;
    || 0x09 <= n <= 0x0d || n == 0x20 || n == 0x85 || n == 0xa0 || n == 0x1680
    || 0x2000 <= n <= 0x200a || n == 0x2028 || n == 0x2029 || n == 0x202f || n == 0x205f || n == 0x3000
  }

  function TrimStart(s: string): string {
    if s != "" && IsSpace(s[0]) then TrimStart(s[1..]) else s
  }

  function TrimEnd(s: string): string {
    if s != "" && IsSpace(s[|s| - 1]) then TrimEnd(s[..|s| - 1]) else s
  }

  function Trim(s: string): string {
    TrimEnd(TrimStart(s))
  }

  /** `trim_start_matches("0x")`: strips the prefix as often as it occurs. */
  function Strip0x(s: string): string {
    if |s| >= 2 && s[0] == '0' && s[1] == 'x' then Strip0x(s[2..]) else s
  }

  function LowerChar(c: char): char {
    if 'A' <= c <= 'Z' then (c as int + 32) as char else c
  }

  /** `to_ascii_lowercase` */
  function Lower(s: string): string {
    seq(|s|, i requires 0 <= i < |s| => LowerChar(s[i]))
  }

  /** `str::len`: the length in UTF-8. */
  function Utf8Length(s: string): nat {
    if s == "" then 0
    else
      var c := s[0] as int;
      (if c < 0x80 then 1 else if c < 0x800 then 2 else if c < 0x10000 then 3 else 4) + Utf8Length(s[1..])
  }

  /** A decimal number as `format!` writes it. */
  function Digits(n: nat): string {
    if n < 10 then ["0123456789"[n]] else Digits(n / 10) + ["0123456789"[n % 10]]
  }

  function Decimal(n: int): string {
    if n < 0 then "-" + Digits(-n) else Digits(n)
  }

  /** No white space at either end. */
  ghost predicate Trimmed(s: string) {
    s != "" ==> !IsSpace(s[0]) && !IsSpace(s[|s| - 1])
  }

  lemma {:induction false} TrimEndFacts(s: string)
    ensures TrimEnd(s) != "" ==> !IsSpace(TrimEnd(s)[|TrimEnd(s)| - 1])
    ensures TrimEnd(s) <= s
  {
    if s != "" && IsSpace(s[|s| - 1]) {
      TrimEndFacts(s[..|s| - 1]);
    }
  }

  lemma {:induction false} TrimStartFacts(s: string)
    ensures TrimStart(s) != "" ==> !IsSpace(TrimStart(s)[0])
  {
    if s != "" && IsSpace(s[0]) {
      TrimStartFacts(s[1..]);
    }
  }

  lemma TrimGivesTrimmed(s: string)
    ensures Trimmed(Trim(s))
  {
    TrimStartFacts(s);
    TrimEndFacts(TrimStart(s));
  }

  /** Trimming changes a string exactly when it is not trimmed. */
  lemma TrimFixed(s: string)
    ensures Trimmed(s) <==> Trim(s) == s
  {
    if !Trimmed(s) {
      TrimGivesTrimmed(s);
    }
  }

  lemma Strip0xFacts(s: string)
    ensures !("0x" <= Strip0x(s))
    ensures |Strip0x(s)| <= |s| && Strip0x(s) == s[|s| - |Strip0x(s)|..]
  {
    Strip0xStops(s);
    Strip0xLeavesSuffix(s);
  }

  lemma {:induction false} Strip0xStops(s: string)
    ensures !("0x" <= Strip0x(s))
  {
    if |s| >= 2 && s[0] == '0' && s[1] == 'x' {
      Strip0xStops(s[2..]);
    } else {
      assert Strip0x(s) == s;
    }
  }

  lemma {:induction false} Strip0xLeavesSuffix(s: string)
    ensures |Strip0x(s)| <= |s| && Strip0x(s) == s[|s| - |Strip0x(s)|..]
  {
    if |s| >= 2 && s[0] == '0' && s[1] == 'x' {
      Strip0xLeavesSuffix(s[2..]);
    } else {
      assert Strip0x(s) == s && s[0..] == s;
    }
  }

  lemma LowerFacts(s: string)
    ensures Lower(Lower(s)) == Lower(s)
    ensures forall i :: 0 <= i < |s| ==> (IsSpace(s[i]) <==> IsSpace(Lower(s)[i]))
    ensures Trimmed(Lower(s)) <==> Trimmed(s)
  {
  }

  predicate AllDigits(s: string) {
    s != "" && forall i :: 0 <= i < |s| ==> '0' <= s[i] <= '9'
  }

  function FromDigits(s: string): int
    requires AllDigits(s)
  {
    var d := s[|s| - 1] as int - '0' as int;
    if |s| == 1 then d else FromDigits(s[..|s| - 1]) * 10 + d
  }

  lemma {:induction false} DigitsFacts(n: nat)
    ensures AllDigits(Digits(n)) && FromDigits(Digits(n)) == n
  {
    if n >= 10 {
      DigitsFacts(n / 10);
      assert Digits(n)[..|Digits(n)| - 1] == Digits(n / 10);
    }
  }

  /** Reading a decimal form back: a sign, then digits. */
  lemma DecimalFacts(n: int)
    ensures n < 0 ==> Decimal(n)[0] == '-' && AllDigits(Decimal(n)[1..]) && FromDigits(Decimal(n)[1..]) == -n
    ensures n >= 0 ==> AllDigits(Decimal(n)) && FromDigits(Decimal(n)) == n
  {
    if n < 0 {
      DigitsFacts(-n);
      assert Decimal(n)[1..] == Digits(-n);
    } else {
      DigitsFacts(n);
    }
  }

  lemma DecimalHasNoColon(n: int)
    ensures ':' !in Decimal(n)
  {
    DigitsFacts(if n < 0 then -n else n);
  }

  /** The decimal form determines the number. */
  lemma DecimalInjective(m: int, n: int)
    requires Decimal(m) == Decimal(n)
    ensures m == n
  {
    DecimalFacts(m);
    DecimalFacts(n);
  }

  /** Digits as they are written: without leading zeros. */
  predicate IsNatNumeral(s: string) {
    AllDigits(s) && (|s| > 1 ==> s[0] != '0')
  }

  /** The decimal form of some `i64`. */
  predicate IsNumeral(s: string) {
    || (IsNatNumeral(s) && FromDigits(s) < 0x8000_0000_0000_0000)
    || (s != "" && s[0] == '-' && IsNatNumeral(s[1..]) && 0 < FromDigits(s[1..]) <= 0x8000_0000_0000_0000)
  }

  lemma {:induction false} FromDigitsBounds(s: string)
    requires AllDigits(s)
    ensures FromDigits(s) >= 0 && (s[0] != '0' ==> FromDigits(s) > 0)
  {
    if |s| > 1 {
      FromDigitsBounds(s[..|s| - 1]);
    }
  }

  lemma {:induction false} DigitsOf(s: string)
    requires IsNatNumeral(s)
    ensures FromDigits(s) >= 0 && Digits(FromDigits(s)) == s
  {
    FromDigitsBounds(s);
    var d := s[|s| - 1] as int - '0' as int;
    DigitChar(s[|s| - 1]);
    if |s| == 1 {
      assert s == [s[0]];
    } else {
      var front := s[..|s| - 1];
      FrontIsNumeral(s);
      DigitsOf(front);
      DigitsSnoc(FromDigits(front), d);
      assert s == front + [s[|s| - 1]];
    }
  }

  lemma DigitChar(c: char)
    requires '0' <= c <= '9'
    ensures "0123456789"[c as int - '0' as int] == c
  {
  }

  lemma FrontIsNumeral(s: string)
    requires IsNatNumeral(s) && |s| > 1
    ensures var front := s[..|s| - 1];
      IsNatNumeral(front) && FromDigits(front) > 0
      && FromDigits(s) == FromDigits(front) * 10 + (s[|s| - 1] as int - '0' as int)
  {
    FromDigitsBounds(s[..|s| - 1]);
  }

  lemma DigitsSnoc(m: nat, d: nat)
    requires m > 0 && d < 10
    ensures Digits(m * 10 + d) == Digits(m) + ["0123456789"[d]]
  {
    assert (m * 10 + d) / 10 == m && (m * 10 + d) % 10 == d;
  }

  function Numeral(s: string): i64
    requires IsNumeral(s)
  {
    if AllDigits(s) then
      FromDigitsBounds(s);
      FromDigits(s)
    else -FromDigits(s[1..])
  }

  lemma NumeralDecimal(s: string)
    requires IsNumeral(s)
    ensures Decimal(Numeral(s)) == s
  {
    if AllDigits(s) {
      DigitsOf(s);
    } else {
      DigitsOf(s[1..]);
      assert "-" + s[1..] == s;
    }
  }

  lemma {:induction false} NoLeadingZero(n: nat)
    ensures |Digits(n)| > 1 ==> Digits(n)[0] != '0'
    ensures n > 0 ==> Digits(n)[0] != '0'
  {
    if n >= 10 {
      NoLeadingZero(n / 10);
      DigitsFacts(n / 10);
    }
  }

  lemma DecimalIsNumeral(n: i64)
    ensures IsNumeral(Decimal(n))
  {
    var k: int := n;
    var m: nat := if k < 0 then -k else k;
    DigitsFacts(m);
    NoLeadingZero(m);
    if n < 0 {
      assert Decimal(n)[1..] == Digits(m);
    }
  }

  /** The decimal form has no letters and no white space. */
  lemma DecimalIsPlain(n: int)
    ensures Lower(Decimal(n)) == Decimal(n) && Decimal(n) != "" && !IsSpace(Decimal(n)[|Decimal(n)| - 1])
  {
    DigitsFacts(if n < 0 then -n else n);
  }

  lemma {:induction false} Utf8AtLeast(s: string)
    ensures Utf8Length(s) >= |s|
  {
    if s != "" {
      Utf8AtLeast(s[1..]);
    }
  }

  /** Trimming takes white space off both ends, and all of it. */
  lemma TrimMeaning(s: string) returns (a: string, b: string)
    ensures s == a + Trim(s) + b && Trimmed(Trim(s))
    ensures (forall i :: 0 <= i < |a| ==> IsSpace(a[i])) && (forall i :: 0 <= i < |b| ==> IsSpace(b[i]))
  {
    a := TrimStartMeaning(s);
    b := TrimEndMeaning(TrimStart(s));
    TrimGivesTrimmed(s);
    assert s == a + TrimStart(s) && TrimStart(s) == Trim(s) + b;
  }

  lemma {:induction false} TrimStartMeaning(s: string) returns (a: string)
    ensures s == a + TrimStart(s) && forall i :: 0 <= i < |a| ==> IsSpace(a[i])
  {
    a := "";
    if s != "" && IsSpace(s[0]) {
      var rest := TrimStartMeaning(s[1..]);
      a := [s[0]] + rest;
      assert s == [s[0]] + s[1..];
    }
  }

  lemma {:induction false} TrimEndMeaning(s: string) returns (b: string)
    ensures s == TrimEnd(s) + b && forall i :: 0 <= i < |b| ==> IsSpace(b[i])
  {
    b := "";
    if s != "" && IsSpace(s[|s| - 1]) {
      var rest := TrimEndMeaning(s[..|s| - 1]);
      b := rest + [s[|s| - 1]];
      assert s == s[..|s| - 1] + [s[|s| - 1]];
    }
  }

  /** Lower case changes the ASCII capitals, one by one, and nothing else. */
  lemma LowerMeaning(s: string)
    ensures Lower("ABCDEFGHIJKLMNOPQRSTUVWXYZ") == "abcdefghijklmnopqrstuvwxyz"
    ensures |Lower(s)| == |s| && forall i :: 0 <= i < |s| ==> [Lower(s)[i]] == Lower([s[i]])
    ensures forall i :: 0 <= i < |s| && !('A' <= s[i] <= 'Z') ==> Lower(s)[i] == s[i]
  {
  }

  /** The width of one character, and the sum over a text. */
  lemma Utf8Widths(c: char, s: string)
    ensures Utf8Length([c] + s) == Utf8Length([c]) + Utf8Length(s) && Utf8Length("") == 0
    ensures Utf8Length([c]) == 1 <==> c as int < 128
    ensures Utf8Length([c]) <= 2 <==> c as int < 2048
    ensures Utf8Length([c]) <= 3 <==> c as int < 65536
    ensures Utf8Length([c]) <= 4
  {
    assert ([c] + s)[1..] == s && [c][1..] == "";
  }
}
