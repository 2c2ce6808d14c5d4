// White space as String.prototype.trim and the \s class of JavaScript see it, and numerals.
module Text {
  import opened Wrappers

  predicate IsSpace(c: char) {
    || c in "\t\n\r " || c == '\U{0B}' || c == '\U{0C}' || c == '\U{A0}' || c == '\U{1680}'
    || '\U{2000}' <= c <= '\U{200A}' || c == '\U{2028}' || c == '\U{2029}' || c == '\U{202F}'
    || c == '\U{205F}' || c == '\U{3000}' || c == '\U{FEFF}'
  }

  function TrimStart(s: string): string {
    if s != "" && IsSpace(s[0]) then TrimStart(s[1..]) else s
  }

  // ---- Numerals ----

  const DIGITS := "0123456789"

  function Decimal(n: nat): (s: string)
    ensures s != ""
  {
    if n < 10 then [DIGITS[n]] else Decimal(n / 10) + [DIGITS[n % 10]]
  }

  lemma {:induction false} DecimalInjective(m: nat, n: nat)
    requires Decimal(m) == Decimal(n)
    ensures m == n
    decreases m
  {
    var s, t := Decimal(m), Decimal(n);
    assert s[|s| - 1] == DIGITS[m % 10] && t[|t| - 1] == DIGITS[n % 10];
    assert m % 10 == n % 10;
    assert (m >= 10 ==> |s| >= 2) && (n >= 10 ==> |t| >= 2);
    if m >= 10 && n >= 10 {
      assert Decimal(m / 10) == s[..|s| - 1] == t[..|t| - 1] == Decimal(n / 10);
      DecimalInjective(m / 10, n / 10);
    }
  }

  predicate IsDigit(c: char) {
    '0' <= c <= '9'
  }

  function LeadingDigits(s: string): (r: string)
    ensures forall c :: c in r ==> IsDigit(c)
  {
    if s != "" && IsDigit(s[0]) then [s[0]] + LeadingDigits(s[1..]) else ""
  }

  function DigitValue(c: char): nat
    requires IsDigit(c)
  {
    c as int - '0' as int
  }

  function ValueOf(digits: string): nat
    requires forall c :: c in digits ==> IsDigit(c)
  {
    if digits == "" then 0 else ValueOf(digits[..|digits| - 1]) * 10 + DigitValue(digits[|digits| - 1])
  }

  function Unsigned(t: string): string {
    if t != "" && (t[0] == '-' || t[0] == '+') then t[1..] else t
  }

  // parseInt to the base of ten: white space, a sign, then as many digits as there are.
  function ParseInt(s: string): Option<int> {
    var t := TrimStart(s);
    var digits := LeadingDigits(Unsigned(t));
    if digits == "" then None
    else
      var value: int := ValueOf(digits);
      Some(if t[0] == '-' then -value else value)
  }

  lemma {:induction false} DecimalValue(n: nat)
    ensures (forall c :: c in Decimal(n) ==> IsDigit(c)) && ValueOf(Decimal(n)) == n
    decreases n
  {
    var s := Decimal(n);
    assert IsDigit(DIGITS[n % 10]) && DigitValue(DIGITS[n % 10]) == n % 10;
    if n >= 10 {
      DecimalValue(n / 10);
      assert s[..|s| - 1] == Decimal(n / 10) && s[|s| - 1] == DIGITS[n % 10];
    } else {
      assert s[..0] == "" && s[0] == DIGITS[n];
    }
  }

  // Numerals have no leading zero, and the numeral of zero is one digit.
  lemma {:induction false} DecimalForm(n: nat)
    ensures Decimal(n)[0] == '0' <==> n == 0
    ensures Decimal(0) == "0"
    decreases n
  {
    if n >= 10 {
      DecimalForm(n / 10);
    }
  }

  lemma {:induction false} AllDigits(s: string)
    requires forall c :: c in s ==> IsDigit(c)
    ensures LeadingDigits(s) == s
  {
    if s != "" {
      AllDigits(s[1..]);
      assert s == [s[0]] + s[1..];
    }
  }

  lemma DigitFirst(s: string)
    requires s != "" && IsDigit(s[0])
    ensures TrimStart(s) == s && Unsigned(s) == s && s[0] != '-'
  {
  }

  lemma ParseDigits(s: string)
    requires s != "" && forall c :: c in s ==> IsDigit(c)
    ensures ParseInt(s) == Some(ValueOf(s))
  {
    var c := s[0];
    assert c in s;
    DigitFirst(s);
    AllDigits(s);
  }

  lemma {:induction false} TrimSpaces(space: string, s: string)
    requires (forall c :: c in space ==> IsSpace(c)) && (s == "" || !IsSpace(s[0]))
    ensures TrimStart(space + s) == s
  {
    hide IsSpace;
    if space == "" {
      assert space + s == s;
    } else {
      assert space[0] in space && (space + s)[1..] == space[1..] + s;
      assert forall c :: c in space[1..] ==> c in space;
      TrimSpaces(space[1..], s);
    }
  }

  lemma {:induction false} DigitsFirst(digits: string, rest: string)
    requires (forall c :: c in digits ==> IsDigit(c)) && (rest == "" || !IsDigit(rest[0]))
    ensures LeadingDigits(digits + rest) == digits
  {
    if digits == "" {
      assert digits + rest == rest;
    } else {
      assert digits[0] in digits && (digits + rest)[1..] == digits[1..] + rest;
      assert forall c :: c in digits[1..] ==> c in digits;
      DigitsFirst(digits[1..], rest);
      assert digits == [digits[0]] + digits[1..];
    }
  }

  lemma SignNoSpace(s: string)
    requires s != "" && (IsDigit(s[0]) || s[0] == '+' || s[0] == '-')
    ensures !IsSpace(s[0])
  {
  }

  // White space, a sign and digits are read as their number, whatever follows; without digits there is none.
  lemma ParseIntReads(space: string, sign: string, digits: string, rest: string)
    requires forall c :: c in space ==> IsSpace(c)
    requires sign in ["", "+", "-"]
    requires (forall c :: c in digits ==> IsDigit(c)) && (rest == "" || !IsDigit(rest[0]))
    requires digits == "" && sign == "" && rest != "" ==> !IsSpace(rest[0]) && rest[0] != '+' && rest[0] != '-'
    ensures ParseInt(space + (sign + (digits + rest)))
         == if digits == "" then None
            else (var value: int := ValueOf(digits); Some(if sign == "-" then -value else value))
  {
    hide IsSpace, TrimStart, LeadingDigits, ValueOf;
    var t := digits + rest;
    var s := sign + t;
    if digits != "" {
      assert digits[0] in digits && t[0] == digits[0];
    }
    if s != "" && (sign != "" || digits != "") {
      SignNoSpace(s);
    }
    TrimSpaces(space, s);
    DigitsFirst(digits, rest);
    assert Unsigned(s) == t by {
      if sign != "" {
        assert s[1..] == t;
      } else {
        assert s == t;
      }
    }
  }

  // Numerals are read back.
  lemma ParseDecimal(n: nat)
    ensures ParseInt(Decimal(n)) == Some(n)
  {
    DecimalValue(n);
    ParseDigits(Decimal(n));
  }
}
