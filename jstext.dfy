/** The few pieces of JavaScript's string semantics that the application
    relies on: `String.prototype.trim`, `parseInt` without a radix,
    `Number` on a semester string, `Number.prototype.toString` on a
    non-negative integer, and `startsWith`. */
module JsText {
  import opened Wrappers

  /** JavaScript's WhiteSpace and LineTerminator code points, the set that
      `trim` removes and `parseInt` skips. */
  predicate IsWhitespace(c: char) {
    || c == '\t' || c == '\n' || c == '\U{000B}' || c == '\U{000C}' || c == '\r'
    || c == ' ' || c == '\U{00A0}' || c == '\U{1680}'
    || ('\U{2000}' <= c <= '\U{200A}')
    || c == '\U{2028}' || c == '\U{2029}' || c == '\U{202F}' || c == '\U{205F}'
    || c == '\U{3000}' || c == '\U{FEFF}'
  }

  /** Every character of `s` is whitespace (the empty string included). */
  predicate IsBlank(s: string) {
    forall i :: 0 <= i < |s| ==> IsWhitespace(s[i])
  }

  /** `s` with its leading whitespace removed. */
  function TrimStart(s: string): (r: string)
    ensures |r| <= |s| && r == s[|s| - |r|..]
    ensures r == [] || !IsWhitespace(r[0])
    ensures forall i :: 0 <= i < |s| - |r| ==> IsWhitespace(s[i])
  {
    if s != [] && IsWhitespace(s[0]) then TrimStart(s[1..]) else s
  }

  /** `s` with its trailing whitespace removed. */
  function TrimEnd(s: string): (r: string)
    ensures |r| <= |s| && r == s[..|r|]
    ensures r == [] || !IsWhitespace(r[|r| - 1])
    ensures forall i :: |r| <= i < |s| ==> IsWhitespace(s[i])
  {
    if s != [] && IsWhitespace(s[|s| - 1]) then TrimEnd(s[..|s| - 1]) else s
  }

  /** `s.trim()`: no whitespace is left at either end, and nothing is left
      exactly when `s` is whitespace only. */
  function Trim(s: string): (r: string)
    ensures r == [] || (!IsWhitespace(r[0]) && !IsWhitespace(r[|r| - 1]))
    ensures r == [] <==> IsBlank(s)
  {
    var t := TrimStart(s);
    assert t != [] ==> !IsWhitespace(t[0]) && TrimEnd(t) != [] && s[|s| - |t|] == t[0];
    var r := TrimEnd(t);
    assert r != [] ==> r[0] == t[0];
    r
  }

  /** `s.trim() === ''` holds exactly for the strings made of whitespace only. */
  lemma TrimEmptyIffBlank(s: string)
    ensures Trim(s) == [] <==> IsBlank(s)
  {
    var t := TrimStart(s);
    if t != [] {
      assert !IsWhitespace(t[0]);
      assert TrimEnd(t) != [];
      assert s[|s| - |t|] == t[0];
    }
  }

  /** The digit value of `c` (0-9, then a-z and A-Z as 10-35). */
  function DigitValue(c: char): (r: Option<nat>)
    ensures r.Some? ==> r.value < 36
  {
    if '0' <= c <= '9' then Some(c as int - '0' as int)
    else if 'a' <= c <= 'z' then Some(c as int - 'a' as int + 10)
    else if 'A' <= c <= 'Z' then Some(c as int - 'A' as int + 10)
    else None
  }

  predicate IsDigit(c: char, radix: nat) {
    DigitValue(c).Some? && DigitValue(c).value < radix
  }

  /** The longest prefix of `s` made of digits in `radix`. */
  function DigitPrefix(s: string, radix: nat): (r: string)
    ensures |r| <= |s| && r == s[..|r|]
    ensures forall i :: 0 <= i < |r| ==> IsDigit(r[i], radix)
    ensures |r| < |s| ==> !IsDigit(s[|r|], radix)
  {
    if s != [] && IsDigit(s[0], radix) then [s[0]] + DigitPrefix(s[1..], radix) else []
  }

  /** The value of a string of digits in `radix`, most significant first. */
  function DigitsValue(z: string, radix: nat): nat
    requires forall i :: 0 <= i < |z| ==> IsDigit(z[i], radix)
  {
    if z == [] then 0
    else
      assert IsDigit(z[|z| - 1], radix);
      DigitsValue(z[..|z| - 1], radix) * radix + DigitValue(z[|z| - 1]).value
  }

  /** `parseInt(s)` with no radix argument; `None` is `NaN`. Leading
      whitespace is skipped, one sign is read, a `0x`/`0X` prefix switches to
      hexadecimal, and the longest run of digits that follows is read. */
  function ParseInt(s: string): (r: Option<int>)
    ensures IsBlank(s) ==> r == None
  {
    var t := TrimStart(s);
    assert t != [] ==> s[|s| - |t|] == t[0];
    var negative := |t| > 0 && t[0] == '-';
    var u := if |t| > 0 && (t[0] == '-' || t[0] == '+') then t[1..] else t;
    var hex := |u| >= 2 && u[0] == '0' && (u[1] == 'x' || u[1] == 'X');
    var radix := if hex then 16 else 10;
    var z := DigitPrefix(if hex then u[2..] else u, radix);
    if z == [] then None
    else
      var v: int := DigitsValue(z, radix);
      if negative then Some(-v) else Some(v)
  }

  /** `Number(s)` for the strings the application passes it: after trimming,
      the empty string is 0 and a string of decimal digits is its value;
      anything else is read as `NaN` (`None`). */
  function NumberValue(s: string): (r: Option<int>)
    ensures IsBlank(s) ==> r == Some(0)
    ensures s != [] && (forall i :: 0 <= i < |s| ==> IsDigit(s[i], 10)) ==> r == Some(DigitsValue(s, 10))
  {
    assert s != [] && (forall i :: 0 <= i < |s| ==> IsDigit(s[i], 10)) ==> Trim(s) == s by {
      if s != [] && (forall i :: 0 <= i < |s| ==> IsDigit(s[i], 10)) {
        DecimalDigitIsPlain(s[0]);
        DecimalDigitIsPlain(s[|s| - 1]);
        assert TrimStart(s) == s;
      }
    }
    var t := Trim(s);
    if t == [] then Some(0)
    else if forall i :: 0 <= i < |t| ==> IsDigit(t[i], 10) then Some(DigitsValue(t, 10))
    else None
  }

  function DigitChar(d: nat): (c: char)
    requires d < 10
    ensures IsDigit(c, 10) && DigitValue(c) == Some(d)
  {
    ('0' as int + d) as char
  }

  /** `n.toString()` for a non-negative integer: its decimal numeral. */
  function NatToString(n: nat): (r: string)
    ensures r != []
    ensures forall i :: 0 <= i < |r| ==> IsDigit(r[i], 10)
  {
    if n < 10 then [DigitChar(n)] else NatToString(n / 10) + [DigitChar(n % 10)]
  }

  /** Reading back the decimal numeral of `n` gives `n`. */
  lemma {:induction false} DigitsValueNatToString(n: nat)
    ensures DigitsValue(NatToString(n), 10) == n
  {
    var r := NatToString(n);
    if n < 10 {
      assert r[..0] == [];
    } else {
      DigitsValueNatToString(n / 10);
      assert r[..|r| - 1] == NatToString(n / 10);
    }
  }

  /** A decimal digit is neither whitespace, nor a sign, nor the `x` of a
      hexadecimal prefix. */
  lemma DecimalDigitIsPlain(c: char)
    requires IsDigit(c, 10)
    ensures !IsWhitespace(c) && c != '-' && c != '+' && c != 'x' && c != 'X'
  {
    assert '0' <= c <= '9';
  }

  /** `parseInt` reads a non-empty string of decimal digits as its value. */
  lemma ParseIntDecimal(s: string)
    requires s != []
    requires forall i :: 0 <= i < |s| ==> IsDigit(s[i], 10)
    ensures ParseInt(s) == Some(DigitsValue(s, 10))
  {
    DecimalDigitIsPlain(s[0]);
    assert TrimStart(s) == s;
    assert !(s[0] == '-' || s[0] == '+');
    if |s| >= 2 {
      DecimalDigitIsPlain(s[1]);
    }
    assert !(|s| >= 2 && s[0] == '0' && (s[1] == 'x' || s[1] == 'X'));
    AllDigitsPrefix(s, 10);
  }

  /** `parseInt(String(n)) === n`: a semester number shown as an option is
      read back as the same number. */
  lemma ParseIntNatToString(n: nat)
    ensures ParseInt(NatToString(n)) == Some(n)
  {
    ParseIntDecimal(NatToString(n));
    DigitsValueNatToString(n);
  }

  /** `Number(String(n)) === n`. */
  lemma NumberValueNatToString(n: nat)
    ensures NumberValue(NatToString(n)) == Some(n)
  {
    var s := NatToString(n);
    DecimalDigitIsPlain(s[0]);
    DecimalDigitIsPlain(s[|s| - 1]);
    assert TrimStart(s) == s;
    assert TrimEnd(s) == s;
    DigitsValueNatToString(n);
  }

  /** On a string made only of digits, the digit prefix is the whole string. */
  lemma {:induction false} AllDigitsPrefix(s: string, radix: nat)
    requires forall i :: 0 <= i < |s| ==> IsDigit(s[i], radix)
    ensures DigitPrefix(s, radix) == s
  {
    if s != [] {
      AllDigitsPrefix(s[1..], radix);
    }
  }

  /** `key.startsWith(prefix)`. */
  predicate StartsWith(key: string, prefix: string) {
    |prefix| <= |key| && key[..|prefix|] == prefix
  }
}
