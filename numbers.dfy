/** Number <-> text conversions of the JavaScript runtime used on user ids:
    the template literal `${n}` for a non-negative integer, `parseInt(s)`
    (radix omitted) and `Number(s)`. NaN is `None`. */
module Numbers {
  import opened Options
  import opened Strings

  /** The value of `c` as a digit in base `radix` (2..36), or -1. */
  function DigitValue(c: char, radix: nat): (r: int)
    ensures -1 <= r < radix
  {
    var v :=
      if '0' <= c <= '9' then c as int - '0' as int
      else if 'a' <= c <= 'z' then c as int - 'a' as int + 10
      else if 'A' <= c <= 'Z' then c as int - 'A' as int + 10
      else -1;
    if v < radix then v else -1
  }

  predicate IsDigit(c: char, radix: nat) {
    DigitValue(c, radix) >= 0
  }

  predicate AllDigits(s: string, radix: nat) {
    forall i :: 0 <= i < |s| ==> IsDigit(s[i], radix)
  }

  /** The value of a digit string, most significant digit first. */
  function ValueIn(s: string, radix: nat): nat
    requires AllDigits(s, radix)
  {
    if s == [] then 0 else ValueIn(s[..|s| - 1], radix) * radix + DigitValue(s[|s| - 1], radix)
  }

  /** The longest prefix of `s` made of digits of base `radix`. */
  function DigitRun(s: string, radix: nat): (r: string)
    ensures |r| <= |s| && r == s[..|r|]
    ensures AllDigits(r, radix)
    ensures |r| < |s| ==> !IsDigit(s[|r|], radix)
  {
    if s != [] && IsDigit(s[0], radix) then [s[0]] + DigitRun(s[1..], radix) else []
  }

  function DecimalDigit(d: nat): (c: char)
    requires d < 10
    ensures IsDigit(c, 10) && DigitValue(c, 10) == d
  {
    ('0' as int + d) as char
  }

  /** The decimal text of a non-negative integer, as `${n}` produces it. */
  function NatToString(n: nat): (s: string)
    ensures |s| >= 1 && AllDigits(s, 10)
    ensures ValueIn(s, 10) == n
  {
    if n < 10 then [DecimalDigit(n)]
    else
      var s := NatToString(n / 10) + [DecimalDigit(n % 10)];
      assert s[..|s| - 1] == NatToString(n / 10);
      s
  }

  /** `parseInt(s)`: skip leading whitespace, an optional sign, an optional
      `0x`/`0X` that switches to base 16, then read the longest run of
      digits; no digit at all is NaN. */
  function ParseInt(s: string): (r: Option<int>)
  {
    var t := TrimStart(s);
    var negative := |t| > 0 && t[0] == '-';
    var u := if |t| > 0 && (t[0] == '-' || t[0] == '+') then t[1..] else t;
    var hex := |u| >= 2 && u[0] == '0' && (u[1] == 'x' || u[1] == 'X');
    var radix: nat := if hex then 16 else 10;
    var digits := DigitRun(if hex then u[2..] else u, radix);
    if digits == [] then None
    else
      var v: int := ValueIn(digits, radix);
      Some(if negative then -v else v)
  }

  /** `Number(s)` on the integer forms: surrounding whitespace is ignored,
      empty text is 0, `0x`/`0o`/`0b` select bases 16, 8 and 2, and otherwise
      an optional sign precedes decimal digits; any other text is `None`. */
  function ToNumber(s: string): (r: Option<int>)
    ensures Trim(s) == [] ==> r == Some(0)
    ensures r.Some? ==> NumberShaped(Trim(s))
  {
    NumberOfTrimmed(Trim(s))
  }

  /** `Number` on text already stripped of surrounding whitespace. */
  function NumberOfTrimmed(t: string): (r: Option<int>)
    ensures t == [] ==> r == Some(0)
    ensures r.Some? ==> NumberShaped(t)
  {
    if t == [] then Some(0)
    else if |t| >= 2 && t[0] == '0' && t[1] in "xXoObB" then
      var radix: nat := if t[1] in "xX" then 16 else if t[1] in "oO" then 8 else 2;
      var digits := t[2..];
      if digits != [] && AllDigits(digits, radix) then
        PrefixedIsShaped(t, radix);
        Some(ValueIn(digits, radix))
      else None
    else
      var negative := t[0] == '-';
      var digits := if t[0] == '-' || t[0] == '+' then t[1..] else t;
      if digits != [] && AllDigits(digits, 10) then
        DecimalIsShaped(t);
        var v: int := ValueIn(digits, 10);
        Some(if negative then -v else v)
      else None
  }

  /** Text `Number` can accept: empty, or a decimal digit or sign followed
      only by letters and digits. */
  predicate NumberShaped(t: string) {
    t == [] ||
    ((IsDigit(t[0], 10) || t[0] == '-' || t[0] == '+') &&
     forall i :: 1 <= i < |t| ==> IsDigit(t[i], 36))
  }

  lemma PrefixedIsShaped(t: string, radix: nat)
    requires |t| >= 2 && t[0] == '0' && t[1] in "xXoObB"
    requires radix <= 36 && AllDigits(t[2..], radix)
    ensures NumberShaped(t)
  {
    assert IsDigit(t[1], 36);
    forall i | 2 <= i < |t| ensures IsDigit(t[i], 36) {
      assert IsDigit(t[2..][i - 2], radix);
    }
  }

  lemma DecimalIsShaped(t: string)
    requires t != []
    requires t[0] == '-' || t[0] == '+' ==> AllDigits(t[1..], 10)
    requires !(t[0] == '-' || t[0] == '+') ==> AllDigits(t, 10)
    ensures NumberShaped(t)
  {
    forall i | 1 <= i < |t| ensures IsDigit(t[i], 36) {
      assert IsDigit(t[i], 10);
    }
  }

  lemma DigitsAreNotWhitespace(s: string, radix: nat)
    requires AllDigits(s, radix)
    ensures NoWhitespace(s)
  {
  }

  /** `parseInt` reads back the decimal text of a non-negative integer. */
  lemma ParseIntOfNatToString(n: nat)
    ensures ParseInt(NatToString(n)) == Some(n)
  {
    var s := NatToString(n);
    ParseIntReadsDigitRun(s, []);
    assert s + [] == s;
  }

  /** `parseInt` reads a run of decimal digits and stops at the first
      character that is not one, whatever follows (short of the `0x`
      prefix, which switches to base 16). */
  lemma ParseIntReadsDigitRun(d: string, rest: string)
    requires |d| >= 1 && AllDigits(d, 10)
    requires rest == [] || !IsDigit(rest[0], 10)
    requires !(d == "0" && rest != [] && (rest[0] == 'x' || rest[0] == 'X'))
    ensures ParseInt(d + rest) == Some(ValueIn(d, 10) as int)
  {
    DecimalLead(d, rest);
    DigitRunStops(d, rest, 10);
    ParseIntPlain(d + rest, d);
  }

  /** Text opening with a decimal digit run has no leading space, no sign
      and no `0x` prefix. */
  lemma DecimalLead(d: string, rest: string)
    requires |d| >= 1 && AllDigits(d, 10)
    requires rest == [] || !IsDigit(rest[0], 10)
    requires !(d == "0" && rest != [] && (rest[0] == 'x' || rest[0] == 'X'))
    ensures var s := d + rest;
      TrimStart(s) == s && s[0] != '-' && s[0] != '+' &&
      !(|s| >= 2 && s[0] == '0' && (s[1] == 'x' || s[1] == 'X'))
  {
    var s := d + rest;
    assert s[0] == d[0] && IsDigit(s[0], 10);
    assert !IsWhitespace(s[0]);
    if |d| >= 2 {
      assert s[1] == d[1] && IsDigit(d[1], 10);
    } else if |s| >= 2 {
      assert d == [s[0]] && s[1] == rest[0];
    }
  }

  lemma ParseIntPlain(s: string, d: string)
    requires TrimStart(s) == s && |s| >= 1 && s[0] != '-' && s[0] != '+'
    requires !(|s| >= 2 && s[0] == '0' && (s[1] == 'x' || s[1] == 'X'))
    requires DigitRun(s, 10) == d && d != []
    ensures ParseInt(s) == Some(ValueIn(d, 10) as int)
  {
  }

  /** `Number` reads a whole decimal digit string as its value. */
  lemma ToNumberOfDigits(s: string)
    requires |s| >= 1 && AllDigits(s, 10)
    ensures ToNumber(s) == Some(ValueIn(s, 10) as int)
  {
    assert Trim(s) == s by {
      DigitsAreNotWhitespace(s, 10);
      TrimOfTrimmed(s);
    }
    DecimalCharacter(s[0]);
    if |s| >= 2 {
      DecimalCharacter(s[1]);
    }
    ToNumberOfPlainDecimal(s);
  }

  lemma ToNumberOfPlainDecimal(t: string)
    requires |t| >= 1 && AllDigits(t, 10)
    requires t[0] != '-' && t[0] != '+' && !(|t| >= 2 && t[1] in "xXoObB")
    ensures NumberOfTrimmed(t) == Some(ValueIn(t, 10) as int)
  {
  }

  lemma DecimalCharacter(c: char)
    requires IsDigit(c, 10)
    ensures '0' <= c <= '9' && c !in "xXoObB" && c != '-' && c != '+'
  {
  }

  lemma {:induction false} DigitRunStops(d: string, rest: string, radix: nat)
    requires AllDigits(d, radix)
    requires rest == [] || !IsDigit(rest[0], radix)
    ensures DigitRun(d + rest, radix) == d
  {
    if d != [] {
      assert (d + rest)[0] == d[0] && (d + rest)[1..] == d[1..] + rest;
      DigitRunStops(d[1..], rest, radix);
    } else {
      assert d + rest == rest;
    }
  }

  /** `Number` refuses a run of decimal digits followed by anything that is
      neither a digit, whitespace, a decimal point nor an exponent mark
      (short of the `0x`/`0o`/`0b` prefixes). */
  lemma NumberRejectsTrailingText(d: string, rest: string)
    requires |d| >= 1 && AllDigits(d, 10)
    requires rest != [] && !IsDigit(rest[0], 10) && !IsWhitespace(rest[0])
    requires rest[0] != '.' && rest[0] != 'e' && rest[0] != 'E'
    requires !(d == "0" && rest[0] in "xXoObB")
    ensures ToNumber(d + rest) == None
  {
    var s := d + rest;
    assert s[0] == d[0] && s[|d|] == rest[0];
    assert !IsWhitespace(s[0]) by {
      assert IsDigit(s[0], 10);
    }
    TrimKeepsInnerText(s, |d|);
    var t := Trim(s);
    assert t[0] == s[0] && t[1] == s[1] && t[|d|] == s[|d|] by {
      assert t[..|d| + 1] == s[..|d| + 1];
    }
    assert |d| >= 2 ==> s[1] == d[1] && IsDigit(d[1], 10);
    NumberRejectsNonDigitAt(t, |d|);
  }

  /** Trimming text that starts with a non-space keeps it up to any later
      non-space. */
  lemma TrimKeepsInnerText(s: string, m: nat)
    requires m < |s| && !IsWhitespace(s[0]) && !IsWhitespace(s[m])
    ensures |Trim(s)| > m && Trim(s)[..m + 1] == s[..m + 1]
  {
    var t := Trim(s);
    var i, j :| WhitespaceAround(s, i, j) && t == s[i..j];
    assert i == 0 && j > m;
  }

  lemma NumberRejectsNonDigitAt(t: string, m: nat)
    requires |t| > m >= 1
    requires IsDigit(t[0], 10) && !IsDigit(t[m], 10)
    requires m >= 2 ==> IsDigit(t[1], 10)
    requires !(m == 1 && t[0] == '0' && t[1] in "xXoObB")
    ensures NumberOfTrimmed(t) == None
  {
    DecimalCharacter(t[0]);
    assert !(t[0] == '0' && t[1] in "xXoObB") by {
      if m >= 2 { DecimalCharacter(t[1]); }
    }
    assert !AllDigits(t, 10);
  }

  lemma {:induction false} DigitRunOfDigits(s: string, radix: nat)
    requires AllDigits(s, radix)
    ensures DigitRun(s, radix) == s
  {
    if s != [] {
      DigitRunOfDigits(s[1..], radix);
    }
  }

  /** `Number` reads back the decimal text of a non-negative integer. */
  lemma ToNumberOfNatToString(n: nat)
    ensures ToNumber(NatToString(n)) == Some(n)
  {
    ToNumberOfDigits(NatToString(n));
  }

  /** Decimal text never contains the `:` that separates token fields. */
  lemma NatToStringHasNoColon(n: nat)
    ensures ':' !in NatToString(n)
  {
    var s := NatToString(n);
    assert !IsDigit(':', 10);
  }
}
